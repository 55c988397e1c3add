/** The physical operators of a compiled pattern (exec/operators/hash_join.py, transform.py). */
module Operators {
  import opened Walks
  import opened Seqs
  import opened Bags

  // A table is a list of column names, in which a name may repeat, and positional rows; the batches of a stream
  // are laid end to end.

  datatype Value = Num(n: int) | Text(s: string) | Null

  type Row = seq<Value>

  datatype Table = Table(names: seq<string>, rows: seq<Row>)

  predicate Rectangular(t: Table) {
    forall i :: 0 <= i < |t.rows| ==> |t.rows[i]| == |t.names|
  }

  // ---------------------------------------------------------------- hash join

  predicate Keyed(rows: seq<Row>, key: nat) {
    forall i :: 0 <= i < |rows| ==> key < |rows[i]|
  }

  /** The positions of the build rows whose key column is `v`. */
  function Matches(build: seq<Row>, key: nat, v: Value): (r: seq<nat>)
    requires Keyed(build, key)
    ensures AllBelow(r, |build|)
  {
    if build == [] then []
    else
      var n := |build| - 1;
      Matches(build[..n], key, v) + if build[n][key] == v then [n] else []
  }

  /** The joined rows of one probe row, in build order. */
  function MatchRows(build: seq<Row>, key: nat, v: Value, probe: Row): seq<Row>
    requires Keyed(build, key)
  {
    if build == [] then []
    else
      var n := |build| - 1;
      MatchRows(build[..n], key, v, probe) + if build[n][key] == v then [build[n] + probe] else []
  }

  /** Inner join, probe-major, matches in build order: what the operator streams. */
  function JoinRows(build: seq<Row>, bkey: nat, probe: seq<Row>, pkey: nat): seq<Row>
    requires Keyed(build, bkey) && Keyed(probe, pkey)
  {
    if probe == [] then []
    else
      var n := |probe| - 1;
      JoinRows(build, bkey, probe[..n], pkey) + MatchRows(build, bkey, probe[n][pkey], probe[n])
  }

  /** The dictionary `_open` fills: key to the positions of its rows, in order. */
  ghost predicate IndexOf(index: map<Value, seq<nat>>, build: seq<Row>, bkey: nat)
    requires Keyed(build, bkey)
  {
    && (forall v :: v in index ==> index[v] == Matches(build, bkey, v))
    && (forall v :: v !in index ==> Matches(build, bkey, v) == [])
  }

  method BuildIndex(build: seq<Row>, bkey: nat) returns (index: map<Value, seq<nat>>)
    requires Keyed(build, bkey)
    ensures IndexOf(index, build, bkey)
  {
    index := map[];
    for i := 0 to |build|
      invariant IndexOf(index, build[..i], bkey)
    {
      var k := build[i][bkey];
      var prior := if k in index then index[k] else [];
      IndexGrows(index, build, bkey, i);
      index := index[k := prior + [i]];
    }
    assert build[..|build|] == build;
  }

  lemma MatchesSnoc(build: seq<Row>, key: nat, i: nat, v: Value)
    requires Keyed(build, key) && i < |build|
    ensures Matches(build[..i + 1], key, v) == Matches(build[..i], key, v) + if build[i][key] == v then [i] else []
  {
    assert build[..i + 1][..i] == build[..i];
  }

  lemma IndexGrows(index: map<Value, seq<nat>>, build: seq<Row>, bkey: nat, i: nat)
    requires Keyed(build, bkey) && i < |build| && IndexOf(index, build[..i], bkey)
    ensures var k := build[i][bkey]; IndexOf(index[k := (if k in index then index[k] else []) + [i]], build[..i + 1],
      bkey)
  {
    var k := build[i][bkey];
    var next := index[k := (if k in index then index[k] else []) + [i]];
    forall v
      ensures v in next ==> next[v] == Matches(build[..i + 1], bkey, v)
      ensures v !in next ==> Matches(build[..i + 1], bkey, v) == []
    {
      MatchesSnoc(build, bkey, i, v);
    }
  }

  lemma {:induction false} MatchRowsAt(build: seq<Row>, key: nat, v: Value, probe: Row, i: nat)
    requires Keyed(build, key)
    ensures |MatchRows(build, key, v, probe)| == |Matches(build, key, v)|
    ensures i < |Matches(build, key, v)| ==>
      MatchRows(build, key, v, probe)[i] == build[Matches(build, key, v)[i]] + probe
  {
    if build != [] {
      MatchRowsAt(build[..|build| - 1], key, v, probe, i);
    }
  }

  method PasteMatches(build: seq<Row>, key: nat, matches: seq<nat>, row: Row, v: Value) returns (pasted: seq<Row>)
    requires Keyed(build, key) && matches == Matches(build, key, v)
    ensures pasted == MatchRows(build, key, v, row)
  {
    pasted := [];
    for i := 0 to |matches|
      invariant |pasted| == i && forall j :: 0 <= j < i ==> pasted[j] == build[matches[j]] + row
    {
      pasted := pasted + [build[matches[i]] + row];
    }
    MatchRowsAt(build, key, v, row, 0);
    forall i | 0 <= i < |matches|
      ensures pasted[i] == MatchRows(build, key, v, row)[i]
    {
      MatchRowsAt(build, key, v, row, i);
    }
  }

  lemma JoinSnoc(build: seq<Row>, bkey: nat, probe: seq<Row>, pkey: nat, i: nat)
    requires Keyed(build, bkey) && Keyed(probe, pkey) && i < |probe|
    ensures JoinRows(build, bkey, probe[..i + 1], pkey)
         == JoinRows(build, bkey, probe[..i], pkey) + MatchRows(build, bkey, probe[i][pkey], probe[i])
  {
    assert probe[..i + 1][..i] == probe[..i];
  }

  /** `HashJoinOperator`, inner kind: index the build side, then probe row by row. */
  method HashJoin(build: Table, bkey: nat, probe: Table, pkey: nat) returns (joined: Table)
    requires Rectangular(build) && Rectangular(probe) && bkey < |build.names| && pkey < |probe.names|
    ensures joined.names == build.names + probe.names
    ensures joined.rows == JoinRows(build.rows, bkey, probe.rows, pkey)
  {
    var index := BuildIndex(build.rows, bkey);
    var rows: seq<Row> := [];
    for pi := 0 to |probe.rows|
      invariant rows == JoinRows(build.rows, bkey, probe.rows[..pi], pkey)
    {
      var row := probe.rows[pi];
      var matches := if row[pkey] in index then index[row[pkey]] else [];
      var pasted := PasteMatches(build.rows, bkey, matches, row, row[pkey]);
      JoinSnoc(build.rows, bkey, probe.rows, pkey, pi);
      rows := rows + pasted;
    }
    assert probe.rows[..|probe.rows|] == probe.rows;
    joined := Table(build.names + probe.names, rows);
  }

  lemma {:induction false} EachMatch<B>(build: seq<Row>, bkey: nat, v: Value, probe: Row, f: Row -> multiset<B>,
                                        g: Row -> multiset<B>)
    requires Keyed(build, bkey)
    requires forall i :: 0 <= i < |build| ==> g(build[i]) == if build[i][bkey] == v then f(build[i] + probe)
      else multiset{}
    ensures Each(MatchRows(build, bkey, v, probe), f) == Each(build, g)
  {
    if build != [] {
      var n := |build| - 1;
      EachMatch(build[..n], bkey, v, probe, f, g);
      var front := MatchRows(build[..n], bkey, v, probe);
      if build[n][bkey] == v {
        EachSnoc(front, build[n] + probe, f);
      } else {
        assert MatchRows(build, bkey, v, probe) == front;
      }
    }
  }

  /** A join emits like two nested loops with an equality test. */
  lemma {:induction false} EachJoin<B>(build: seq<Row>, bkey: nat, probe: seq<Row>, pkey: nat, f: Row -> multiset<B>,
                                       g: (Row, Row) -> multiset<B>)
    requires Keyed(build, bkey) && Keyed(probe, pkey)
    requires forall i, j :: 0 <= i < |build| && 0 <= j < |probe| ==>
      g(build[i], probe[j]) == if build[i][bkey] == probe[j][pkey] then f(build[i] + probe[j]) else multiset{}
    ensures Each(JoinRows(build, bkey, probe, pkey), f) == Each(probe, p => Each(build, b => g(b, p)))
    decreases |probe|
  {
    if probe != [] {
      var n := |probe| - 1;
      var front, last := probe[..n], probe[n];
      EachJoin(build, bkey, front, pkey, f, g);
      EachConcat(JoinRows(build, bkey, front, pkey), MatchRows(build, bkey, last[pkey], last), f);
      EachMatch(build, bkey, last[pkey], last, f, b => g(b, last));
    }
  }

  // ---------------------------------------------------------------- drop columns

  function Occurrences(names: seq<string>, x: string): nat {
    if names == [] then 0
    else Occurrences(names[..|names| - 1], x) + if names[|names| - 1] == x then 1 else 0
  }

  /** Which copy of a repeated name goes: the ones after the first, and the first only when too few follow. */
  predicate Kept(names: seq<string>, drop: seq<string>, i: nat)
    requires i < |names|
  {
    var asked, earlier, total := Occurrences(drop, names[i]), Occurrences(names[..i], names[i]),
        Occurrences(names, names[i]);
    asked == 0 || (if earlier == 0 then total - 1 >= asked else earlier > asked)
  }

  /** Drops still owed for a name after `seen` copies went by. */
  function Owed(asked: nat, seen: nat): nat {
    if seen <= 1 then asked else if seen - 1 >= asked then 0 else asked - (seen - 1)
  }

  /** The counters for one name after `n` columns. */
  ghost predicate CountersFor(names: seq<string>, drop: seq<string>, n: nat, owed: map<string, nat>,
                              first: map<string, nat>, x: string)
    requires n <= |names|
  {
    && (x in owed <==> Occurrences(drop, x) > 0)
    && (x in owed ==> owed[x] == Owed(Occurrences(drop, x), Occurrences(names[..n], x)))
    && (x in first <==> x in owed && Occurrences(names[..n], x) > 0)
    && (x in first ==> first[x] < n && names[first[x]] == x && Occurrences(names[..first[x]], x) == 0)
  }

  /** Kept by the counting pass, before first copies are revisited. */
  ghost predicate Passed(names: seq<string>, drop: seq<string>, i: nat)
    requires i < |names|
  {
    var asked, earlier := Occurrences(drop, names[i]), Occurrences(names[..i], names[i]);
    asked == 0 || earlier == 0 || earlier > asked
  }

  ghost predicate Scanned(names: seq<string>, drop: seq<string>, n: nat, owed: map<string, nat>,
                          first: map<string, nat>, mask: seq<bool>)
    requires n <= |names|
  {
    && |mask| == n
    && (forall x :: CountersFor(names, drop, n, owed, first, x))
    && (forall i :: 0 <= i < n ==> mask[i] == Passed(names, drop, i))
  }

  lemma OccurrencesStep(names: seq<string>, n: nat, x: string)
    requires n < |names|
    ensures Occurrences(names[..n + 1], x) == Occurrences(names[..n], x) + if names[n] == x then 1 else 0
  {
    assert names[..n + 1][..n] == names[..n];
  }

  method CountDrops(drop: seq<string>) returns (counts: map<string, nat>)
    ensures forall x :: x in counts <==> Occurrences(drop, x) > 0
    ensures forall x :: x in counts ==> counts[x] == Occurrences(drop, x)
  {
    counts := map[];
    for i := 0 to |drop|
      invariant forall x :: x in counts <==> Occurrences(drop[..i], x) > 0
      invariant forall x :: x in counts ==> counts[x] == Occurrences(drop[..i], x)
    {
      forall x
        ensures Occurrences(drop[..i + 1], x) == Occurrences(drop[..i], x) + if drop[i] == x then 1 else 0
      {
        OccurrencesStep(drop, i, x);
      }
      counts := counts[drop[i] := (if drop[i] in counts then counts[drop[i]] else 0) + 1];
    }
    assert drop[..|drop|] == drop;
  }

  /** The counting pass over the schema. */
  method CountingPass(names: seq<string>, drop: seq<string>)
    returns (owed: map<string, nat>, first: map<string, nat>, mask: seq<bool>)
    ensures Scanned(names, drop, |names|, owed, first, mask)
  {
    owed := CountDrops(drop);
    first := map[];
    mask := [];
    for n := 0 to |names|
      invariant Scanned(names, drop, n, owed, first, mask)
    {
      var name := names[n];
      ghost var owed', first' := owed, first;
      assert CountersFor(names, drop, n, owed, first, name);
      if name in owed && owed[name] > 0 {
        if name !in first {
          first := first[name := n];
          mask := mask + [true];
        } else {
          owed := owed[name := owed[name] - 1];
          mask := mask + [false];
        }
      } else {
        mask := mask + [true];
      }
      ghost var next := n + 1;
      forall x
        ensures CountersFor(names, drop, next, owed, first, x)
      {
        assert CountersFor(names, drop, n, owed', first', x);
        OccurrencesStep(names, n, x);
      }
    }
  }

  /** `DropColumnsOperator`: the counting pass, then the first copies that are still owed. */
  method DropMask(names: seq<string>, drop: seq<string>) returns (mask: seq<bool>)
    ensures |mask| == |names| && forall i :: 0 <= i < |names| ==> mask[i] == Kept(names, drop, i)
  {
    var owed, first, scanned := CountingPass(names, drop);
    assert forall x :: CountersFor(names, drop, |names|, owed, first, x);
    mask := scanned;
    var pending := first.Keys;
    while pending != {}
      invariant pending <= first.Keys && |mask| == |names|
      invariant forall i :: 0 <= i < |names| ==> mask[i] == (scanned[i] && !Cleared(names, owed, first, pending, i))
      decreases |pending|
    {
      var x :| x in pending;
      assert CountersFor(names, drop, |names|, owed, first, x);
      if owed[x] > 0 {
        mask := mask[first[x] := false];
      }
      pending := pending - {x};
    }
    forall i | 0 <= i < |names|
      ensures mask[i] == Kept(names, drop, i)
    {
      MaskIsKept(names, drop, owed, first, scanned, i);
    }
  }

  ghost predicate Cleared(names: seq<string>, owed: map<string, nat>, first: map<string, nat>, pending: set<string>,
                          i: nat)
    requires i < |names|
  {
    names[i] in first && names[i] in owed && names[i] !in pending && first[names[i]] == i && owed[names[i]] > 0
  }

  lemma MaskIsKept(names: seq<string>, drop: seq<string>, owed: map<string, nat>, first: map<string, nat>,
                   mask: seq<bool>, i: nat)
    requires i < |names| && Scanned(names, drop, |names|, owed, first, mask)
    ensures (mask[i] && !Cleared(names, owed, first, {}, i)) == Kept(names, drop, i)
  {
    var x := names[i];
    assert CountersFor(names, drop, |names|, owed, first, x);
    assert names[..|names|] == names;
    OccurrencesStep(names, i, x);
    OccurrencesGrow(names, x, i + 1, |names|);
    if x in first {
      FirstIsWhereNoneBefore(names, x, i, first[x]);
    }
  }

  lemma {:induction false} FirstIsWhereNoneBefore(names: seq<string>, x: string, i: nat, j: nat)
    requires i < |names| && j < |names| && names[i] == x && names[j] == x && Occurrences(names[..j], x) == 0
    ensures Occurrences(names[..i], x) == 0 <==> i == j
  {
    if j < i {
      OccurrencesGrow(names, x, j + 1, i);
      OccurrencesStep(names, j, x);
    } else if i < j {
      OccurrencesGrow(names, x, i + 1, j);
      OccurrencesStep(names, i, x);
    }
  }

  lemma {:induction false} OccurrencesGrow(names: seq<string>, x: string, i: nat, j: nat)
    requires i <= j <= |names|
    ensures Occurrences(names[..i], x) <= Occurrences(names[..j], x)
  {
    if i < j {
      OccurrencesGrow(names, x, i, j - 1);
      OccurrencesStep(names, j - 1, x);
    }
  }
}
