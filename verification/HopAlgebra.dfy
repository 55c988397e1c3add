/** One hop of a compiled pattern as an equation between nested loops. */
module HopAlgebra {
  import opened Walks
  import opened Seqs
  import opened Bags
  import opened Operators

  // The two hash joins and the two column drops emit what the loops "bound row, edge, target row" emit.

  // ---------------------------------------------------------------- dropping one repeated column

  function Select<T>(s: seq<T>, mask: seq<bool>): seq<T>
    requires |s| == |mask|
  {
    if s == [] then []
    else
      var n := |s| - 1;
      Select(s[..n], mask[..n]) + if mask[n] then [s[n]] else []
  }

  function SelectRows(rows: seq<Row>, mask: seq<bool>): (r: seq<Row>)
    requires forall i :: 0 <= i < |rows| ==> |rows[i]| == |mask|
    ensures |r| == |rows| && forall i :: 0 <= i < |r| ==> r[i] == Select(rows[i], mask)
  {
    seq(|rows|, i requires 0 <= i < |rows| => Select(rows[i], mask))
  }

  /** All but one position. */
  predicate OnlyGap(mask: seq<bool>, gap: nat) {
    gap < |mask| && forall i :: 0 <= i < |mask| ==> mask[i] == (i != gap)
  }

  lemma {:induction false} SelectAll<T>(s: seq<T>, mask: seq<bool>)
    requires |s| == |mask| && forall i :: 0 <= i < |mask| ==> mask[i]
    ensures Select(s, mask) == s
  {
    if s != [] {
      SelectAll(s[..|s| - 1], mask[..|s| - 1]);
    }
  }

  lemma {:induction false} SelectGap<T>(s: seq<T>, mask: seq<bool>, gap: nat)
    requires |s| == |mask| && OnlyGap(mask, gap)
    ensures Select(s, mask) == s[..gap] + s[gap + 1..]
  {
    var n := |s| - 1;
    if gap == n {
      SelectAll(s[..n], mask[..n]);
    } else {
      SelectGap(s[..n], mask[..n], gap);
    }
  }

  lemma {:induction false} OccurrencesConcat(a: seq<string>, b: seq<string>, x: string)
    ensures Occurrences(a + b, x) == Occurrences(a, x) + Occurrences(b, x)
  {
    if b == [] {
      assert a + b == a;
    } else {
      OccurrencesConcat(a, b[..|b| - 1], x);
      assert (a + b)[..|a + b| - 1] == a + b[..|b| - 1];
    }
  }

  lemma {:induction false} OccurrencesAbsent(a: seq<string>, x: string)
    ensures Occurrences(a, x) == 0 <==> x !in a
  {
    if a != [] {
      OccurrencesAbsent(a[..|a| - 1], x);
      assert a == a[..|a| - 1] + [a[|a| - 1]];
    }
  }

  lemma OccurrencesInDistinct(a: seq<string>, i: nat)
    requires Distinct(a) && i < |a|
    ensures Occurrences(a, a[i]) == 1
  {
    var x := a[i];
    assert a == a[..i] + [x] + a[i + 1..];
    OccurrencesConcat(a[..i] + [x], a[i + 1..], x);
    OccurrencesConcat(a[..i], [x], x);
    OccurrencesAbsent(a[..i], x);
    OccurrencesAbsent(a[i + 1..], x);
    assert Occurrences([x], x) == 1 by { assert [x][..0] == []; }
  }

  /** After a join on a shared name, dropping that name removes exactly the probe-side copy. */
  lemma DropProbeCopy(left: seq<string>, right: seq<string>, at: nat, i: nat)
    requires Distinct(left) && Distinct(right) && at < |right| && right[at] in left && i < |left + right|
    requires forall j :: 0 <= j < |right| && j != at ==> right[j] !in left
    ensures Kept(left + right, [right[at]], i) <==> i != |left| + at
  {
    var x, names := right[at], left + right;
    var l :| 0 <= l < |left| && left[l] == x;
    OccurrencesAbsent([x], names[i]);
    if names[i] == x {
      OccurrencesInDistinct([x], 0);
      assert i == l || i == |left| + at;
      OccurrencesConcat(left, right, x);
      OccurrencesInDistinct(left, l);
      OccurrencesInDistinct(right, at);
      if i == l {
        assert names[..i] == left[..i];
        OccurrencesAbsent(left[..i], x);
      } else {
        assert names[..i] == left + right[..at];
        OccurrencesConcat(left, right[..at], x);
        OccurrencesAbsent(right[..at], x);
      }
    }
  }

  // ---------------------------------------------------------------- one hop

  /** A batch of `(source id, target id)` pairs as a two-column table. */
  function PairRows(pairs: seq<(nat, nat)>): (r: seq<Row>)
    ensures |r| == |pairs| && forall i :: 0 <= i < |r| ==> r[i] == [Num(pairs[i].0), Num(pairs[i].1)]
  {
    seq(|pairs|, i requires 0 <= i < |pairs| => [Num(pairs[i].0), Num(pairs[i].1)])
  }

  predicate Width(rows: seq<Row>, w: nat) {
    forall i :: 0 <= i < |rows| ==> |rows[i]| == w
  }

  function Without(row: Row, at: nat): Row
    requires at < |row|
  {
    row[..at] + row[at + 1..]
  }

  lemma {:induction false} JoinWidth(build: seq<Row>, bkey: nat, probe: seq<Row>, pkey: nat, w: nat, u: nat)
    requires Width(build, w) && Width(probe, u) && bkey < w && pkey < u
    ensures Width(JoinRows(build, bkey, probe, pkey), w + u)
    decreases |probe|
  {
    if probe != [] {
      JoinWidth(build, bkey, probe[..|probe| - 1], pkey, w, u);
      MatchWidth(build, bkey, probe[|probe| - 1][pkey], probe[|probe| - 1], w);
    }
  }

  lemma {:induction false} MatchWidth(build: seq<Row>, key: nat, v: Value, probe: Row, w: nat)
    requires Width(build, w) && key < w
    ensures Width(MatchRows(build, key, v, probe), w + |probe|)
  {
    if build != [] {
      MatchWidth(build[..|build| - 1], key, v, probe, w);
    }
  }

  lemma SelectJoined(b: Row, p: Row, pkey: nat, mask: seq<bool>)
    requires pkey < |p| && |mask| == |b| + |p| && OnlyGap(mask, |b| + pkey)
    ensures Select(b + p, mask) == b + Without(p, pkey)
  {
    var whole, gap := JoinedParts(b, p, pkey);
    SelectGap(whole, mask, gap);
  }

  lemma JoinedParts(b: Row, p: Row, pkey: nat) returns (whole: Row, gap: nat)
    requires pkey < |p|
    ensures whole == b + p && gap == |b| + pkey && whole[..gap] + whole[gap + 1..] == b + Without(p, pkey)
  {
    whole, gap := b + p, |b| + pkey;
    assert whole[..gap] == b + p[..pkey];
    assert whole[gap + 1..] == p[pkey + 1..];
    assert b + p[..pkey] + p[pkey + 1..] == b + (p[..pkey] + p[pkey + 1..]);
  }

  /** A join on a shared column followed by the drop of its probe copy. */
  lemma EachJoinDrop<B>(build: seq<Row>, bkey: nat, w: nat, probe: seq<Row>, pkey: nat, u: nat, mask: seq<bool>,
                        f: Row -> multiset<B>, g: (Row, Row) -> multiset<B>)
    requires Width(build, w) && Width(probe, u) && bkey < w && pkey < u
    requires |mask| == w + u && OnlyGap(mask, w + pkey)
    requires forall i, j :: 0 <= i < |build| && 0 <= j < |probe| ==>
      g(build[i], probe[j]) == if build[i][bkey] == probe[j][pkey] then f(build[i] + Without(probe[j], pkey))
                                else multiset{}
    ensures Width(JoinRows(build, bkey, probe, pkey), w + u)
    ensures Each(SelectRows(JoinRows(build, bkey, probe, pkey), mask), f) == Each(probe, p => Each(build, b => g(b, p)))
  {
    JoinWidth(build, bkey, probe, pkey, w, u);
    var joined := JoinRows(build, bkey, probe, pkey);
    var f' := (row: Row) => if |row| == |mask| then f(Select(row, mask)) else multiset{};
    EachMapped(SelectRows(joined, mask), joined, f, f');
    forall i, j | 0 <= i < |build| && 0 <= j < |probe|
      ensures g(build[i], probe[j]) == if build[i][bkey] == probe[j][pkey] then f'(build[i] + probe[j]) else multiset{}
    {
      SelectJoined(build[i], probe[j], pkey, mask);
    }
    EachJoin(build, bkey, probe, pkey, f', g);
  }

  /** What one choice of bound row, edge and target row contributes. */
  ghost function Hit<B>(p: Row, e: (nat, nat), t: Row, kp: nat, tp: nat, f: Row -> multiset<B>): multiset<B> {
    if kp < |p| && tp < |t| && p[kp] == Num(e.0) && Num(e.1) == t[tp] then f(p + [Num(e.1)] + Without(t, tp))
        else multiset{}
  }

  function Expanded(bound: seq<Row>, kp: nat, w: nat, edges: seq<(nat, nat)>, mask: seq<bool>): seq<Row>
    requires Width(bound, w) && kp < w && |mask| == w + 2
  {
    JoinWidth(bound, kp, PairRows(edges), 0, w, 2);
    SelectRows(JoinRows(bound, kp, PairRows(edges), 0), mask)
  }

  lemma ExpandedWidth(bound: seq<Row>, kp: nat, w: nat, edges: seq<(nat, nat)>, mask: seq<bool>)
    requires Width(bound, w) && kp < w && |mask| == w + 2 && OnlyGap(mask, w)
    ensures Width(Expanded(bound, kp, w, edges, mask), w + 1)
  {
    JoinWidth(bound, kp, PairRows(edges), 0, w, 2);
    var joined := JoinRows(bound, kp, PairRows(edges), 0);
    forall i | 0 <= i < |joined|
      ensures |Select(joined[i], mask)| == w + 1
    {
      SelectGap(joined[i], mask, w);
    }
  }

  /** First join: bound rows against the expanded pairs. */
  lemma EachExpanded<B>(bound: seq<Row>, kp: nat, w: nat, edges: seq<(nat, nat)>, mask: seq<bool>,
                        f: Row -> multiset<B>, h: ((nat, nat), Row) -> multiset<B>)
    requires Width(bound, w) && kp < w && |mask| == w + 2 && OnlyGap(mask, w)
    requires forall i, j :: 0 <= i < |edges| && 0 <= j < |bound| ==>
      h(edges[i], bound[j]) == if bound[j][kp] == Num(edges[i].0) then f(bound[j] + [Num(edges[i].1)]) else multiset{}
    ensures Each(Expanded(bound, kp, w, edges, mask), f) == Loops(edges, bound, h)
  {
    var pairs := PairRows(edges);
    var g := (p: Row, er: Row) =>
      if kp < |p| && |er| == 2 && p[kp] == er[0] then f(p + Without(er, 0)) else multiset{};
    EachJoinDrop(bound, kp, w, pairs, 0, 2, mask, f, g);
    var outer := (er: Row) => Each(bound, p => g(p, er));
    var outer' := (e: (nat, nat)) => Along(bound, h, e);
    forall i | 0 <= i < |edges|
      ensures outer(pairs[i]) == outer'(edges[i])
    {
      assert Without(pairs[i], 0) == [Num(edges[i].1)];
      AlongIs(bound, h, edges[i], p => g(p, pairs[i]));
    }
    EachMapped(pairs, edges, outer, outer');
    LoopsAre(edges, bound, h, outer');
  }

  ghost function Hits<B>(kp: nat, tp: nat, f: Row -> multiset<B>): (Row, (nat, nat), Row) -> multiset<B> {
    (t, e, p) => Hit(p, e, t, kp, tp, f)
  }

  lemma EachByTarget<B>(bound: seq<Row>, kp: nat, w: nat, edges: seq<(nat, nat)>, mask1: seq<bool>, tp: nat, u: nat,
                        f: Row -> multiset<B>, g: Row -> multiset<B>, t: Row)
    requires Width(bound, w) && kp < w && |mask1| == w + 2 && OnlyGap(mask1, w) && tp < u == |t|
    requires forall q: Row :: |q| == w + 1 ==> g(q) == if q[w] == t[tp] then f(q + Without(t, tp)) else multiset{}
    ensures Each(Expanded(bound, kp, w, edges, mask1), g) == Inner(edges, bound, Hits(kp, tp, f), t)
  {
    var h := Hits(kp, tp, f);
    var h' := (e: (nat, nat), p: Row) => h(t, e, p);
    EachExpanded(bound, kp, w, edges, mask1, g, h');
    InnerIs(edges, bound, h, t, h');
  }

  /** The rows that leave one hop: join, drop, join, drop. */
  function HopRows(bound: seq<Row>, kp: nat, w: nat, edges: seq<(nat, nat)>, mask1: seq<bool>,
                   targets: seq<Row>, tp: nat, u: nat, mask2: seq<bool>): seq<Row>
    requires Width(bound, w) && kp < w && |mask1| == w + 2 && OnlyGap(mask1, w)
    requires Width(targets, u) && tp < u && |mask2| == w + 1 + u
  {
    var expanded := Expanded(bound, kp, w, edges, mask1);
    ExpandedWidth(bound, kp, w, edges, mask1);
    JoinWidth(expanded, w, targets, tp, w + 1, u);
    SelectRows(JoinRows(expanded, w, targets, tp), mask2)
  }

  lemma EachHopByTarget<B>(bound: seq<Row>, kp: nat, w: nat, edges: seq<(nat, nat)>, mask1: seq<bool>,
                           targets: seq<Row>, tp: nat, u: nat, mask2: seq<bool>, f: Row -> multiset<B>,
                           byTarget: Row -> multiset<B>)
    requires Width(bound, w) && kp < w && |mask1| == w + 2 && OnlyGap(mask1, w)
    requires Width(targets, u) && tp < u && |mask2| == w + 1 + u && OnlyGap(mask2, w + 1 + tp)
    requires forall j :: 0 <= j < |targets| ==> byTarget(targets[j]) == Inner(edges, bound, Hits(kp, tp, f), targets[j])
    ensures Each(HopRows(bound, kp, w, edges, mask1, targets, tp, u, mask2), f) == Each(targets, byTarget)
  {
    var expanded := Expanded(bound, kp, w, edges, mask1);
    ExpandedWidth(bound, kp, w, edges, mask1);
    var g := (q: Row, t: Row) => if w < |q| && tp < |t| && q[w] == t[tp] then f(q + Without(t, tp)) else multiset{};
    EachJoinDrop(expanded, w, w + 1, targets, tp, u, mask2, f, g);
    var joined := (t: Row) => Each(expanded, q => g(q, t));
    forall j | 0 <= j < |targets|
      ensures joined(targets[j]) == byTarget(targets[j])
    {
      EachByTarget(bound, kp, w, edges, mask1, tp, u, f, q => g(q, targets[j]), targets[j]);
    }
    EachSame(targets, joined, byTarget);
  }

  /** Two joins and two drops emit like the loops "bound row, edge, target row". */
  lemma EachHop<B>(bound: seq<Row>, kp: nat, w: nat, edges: seq<(nat, nat)>, mask1: seq<bool>,
                   targets: seq<Row>, tp: nat, u: nat, mask2: seq<bool>, f: Row -> multiset<B>,
                   byBound: Row -> multiset<B>)
    requires Width(bound, w) && kp < w && |mask1| == w + 2 && OnlyGap(mask1, w)
    requires Width(targets, u) && tp < u && |mask2| == w + 1 + u && OnlyGap(mask2, w + 1 + tp)
    requires forall i :: 0 <= i < |bound| ==> byBound(bound[i]) == Outer(edges, targets, Hits(kp, tp, f), bound[i])
    ensures Each(HopRows(bound, kp, w, edges, mask1, targets, tp, u, mask2), f) == Each(bound, byBound)
  {
    var h := Hits(kp, tp, f);
    var byTarget := (t: Row) => Inner(edges, bound, h, t);
    EachHopByTarget(bound, kp, w, edges, mask1, targets, tp, u, mask2, f, byTarget);
    EachRotate(targets, edges, bound, h, byTarget, byBound);
  }
}
