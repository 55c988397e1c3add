/** The queue-driven enumeration and the queries built on it. */
module PathSearch {
  import opened Results
  import opened Walks
  import opened Paths
  import opened Routes

  // ---------------------------------------------------------------- reference result

  function Hits(source: nat, target: nat, ps: seq<Path>): seq<Path> {
    if ps == [] then []
    else Hits(source, target, ps[..|ps| - 1]) + if End(source, ps[|ps| - 1]) == target then [ps[|ps| - 1]] else []
  }

  /** The paths that reach the target on levels 1 to `k`. */
  function HitsOver(levels: nat -> seq<Path>, source: nat, target: nat, k: nat): seq<Path> {
    if k == 0 then [] else HitsOver(levels, source, target, k - 1) + Hits(source, target, levels(k))
  }

  function Levels(adj: Adjacency, source: nat): nat -> seq<Path> {
    (k: nat) => Level(adj, source, k)
  }

  /** The paths that reach the target in 1 to `k` steps, level by level. */
  function HitsUpTo(adj: Adjacency, source: nat, target: nat, k: nat): seq<Path> {
    HitsOver(Levels(adj, source), source, target, k)
  }

  lemma {:induction false} HitsConcat(source: nat, target: nat, a: seq<Path>, b: seq<Path>)
    ensures Hits(source, target, a + b) == Hits(source, target, a) + Hits(source, target, b)
  {
    if b == [] {
      assert a + b == a;
    } else {
      HitsConcat(source, target, a, b[..|b| - 1]);
      assert (a + b)[..|a + b| - 1] == a + b[..|b| - 1];
    }
  }

  lemma {:induction false} InHits(source: nat, target: nat, ps: seq<Path>, q: Path)
    ensures q in Hits(source, target, ps) <==> q in ps && End(source, q) == target
  {
    if ps != [] {
      InHits(source, target, ps[..|ps| - 1], q);
      assert ps == ps[..|ps| - 1] + [ps[|ps| - 1]];
    }
  }

  lemma {:induction false} HitsDistinct(source: nat, target: nat, ps: seq<Path>)
    requires Distinct(ps)
    ensures Distinct(Hits(source, target, ps))
  {
    if ps != [] {
      var n := |ps| - 1;
      HitsDistinct(source, target, ps[..n]);
      InHits(source, target, ps[..n], ps[n]);
      assert ps[n] !in ps[..n];
    }
  }

  /** Level `k` holds paths of `k` steps. */
  ghost predicate Sized(levels: nat -> seq<Path>) {
    forall k: nat, q :: q in levels(k) ==> |q| == k
  }

  lemma {:induction false} InHitsOver(levels: nat -> seq<Path>, source: nat, target: nat, k: nat, q: Path)
    requires Sized(levels)
    ensures q in HitsOver(levels, source, target, k) <==> 1 <= |q| <= k && q in levels(|q|) && End(source, q) == target
  {
    if k > 0 {
      InHitsOver(levels, source, target, k - 1, q);
      InHits(source, target, levels(k), q);
    }
  }

  lemma {:induction false} HitsOverDistinct(levels: nat -> seq<Path>, source: nat, target: nat, k: nat)
    requires Sized(levels) && forall j: nat :: Distinct(levels(j))
    ensures Distinct(HitsOver(levels, source, target, k))
  {
    if k > 0 {
      HitsOverDistinct(levels, source, target, k - 1);
      HitsDistinct(source, target, levels(k));
      LevelsApart(levels, source, target, k);
      DistinctConcat(HitsOver(levels, source, target, k - 1), Hits(source, target, levels(k)));
    }
  }

  /** The hits of a level are longer than those before it. */
  lemma LevelsApart(levels: nat -> seq<Path>, source: nat, target: nat, k: nat)
    requires Sized(levels) && k > 0
    ensures forall q :: q in Hits(source, target, levels(k)) ==> q !in HitsOver(levels, source, target, k - 1)
  {
    HitsSized(levels, source, target, k, levels(k));
    EarlierHitsShorter(levels, source, target, k - 1);
    SizesApart(Hits(source, target, levels(k)), HitsOver(levels, source, target, k - 1), k);
  }

  lemma SizesApart(here: seq<Path>, before: seq<Path>, k: nat)
    requires (forall q :: q in here ==> |q| == k) && forall q :: q in before ==> |q| < k
    ensures forall q :: q in here ==> q !in before
  {
  }

  lemma HitsSized(levels: nat -> seq<Path>, source: nat, target: nat, k: nat, level: seq<Path>)
    requires Sized(levels) && level == levels(k)
    ensures forall q :: q in Hits(source, target, level) ==> |q| == k
  {
    forall q | q in Hits(source, target, level)
      ensures |q| == k
    {
      InHits(source, target, level, q);
    }
  }

  lemma EarlierHitsShorter(levels: nat -> seq<Path>, source: nat, target: nat, k: nat)
    requires Sized(levels)
    ensures forall q :: q in HitsOver(levels, source, target, k) ==> |q| <= k
  {
    forall q | q in HitsOver(levels, source, target, k)
      ensures |q| <= k
    {
      InHitsOver(levels, source, target, k, q);
    }
  }

  lemma LevelsSized(adj: Adjacency, source: nat)
    ensures Sized(Levels(adj, source))
  {
    forall k: nat, q | q in Levels(adj, source)(k)
      ensures |q| == k
    {
      LevelExact(adj, source, k, q);
    }
  }

  /** Every simple path with 1 to `k` steps that ends at the target, and nothing else. */
  lemma InHitsUpTo(adj: Adjacency, source: nat, target: nat, k: nat, q: Path)
    ensures q in HitsUpTo(adj, source, target, k) <==>
      1 <= |q| <= k && IsSimple(adj, source, q) && End(source, q) == target
  {
    LevelsSized(adj, source);
    InHitsOver(Levels(adj, source), source, target, k, q);
    LevelExact(adj, source, |q|, q);
  }

  lemma HitsUpToDistinct(adj: Adjacency, source: nat, target: nat, k: nat)
    requires NoRepeats(adj)
    ensures Distinct(HitsUpTo(adj, source, target, k))
  {
    LevelsSized(adj, source);
    forall j: nat
      ensures Distinct(Levels(adj, source)(j))
    {
      LevelDistinct(adj, source, j);
    }
    HitsOverDistinct(Levels(adj, source), source, target, k);
  }

  lemma {:induction false} ExtendAllConcat(adj: Adjacency, source: nat, ps: seq<Path>, p: Path)
    ensures ExtendAll(adj, source, ps + [p]) == ExtendAll(adj, source, ps) + Extensions(adj, source, p)
  {
    assert (ps + [p])[..|ps|] == ps;
  }

  // ---------------------------------------------------------------- the queue

  datatype Item = Item(current: nat, nodes: seq<nat>, steps: Path)

  function ItemOf(source: nat, p: Path): Item {
    Item(End(source, p), Nodes(source, p), p)
  }

  function Items(source: nat, ps: seq<Path>): seq<Item> {
    if ps == [] then [] else Items(source, ps[..|ps| - 1]) + [ItemOf(source, ps[|ps| - 1])]
  }

  lemma {:induction false} ItemsConcat(source: nat, a: seq<Path>, b: seq<Path>)
    ensures Items(source, a + b) == Items(source, a) + Items(source, b)
  {
    if b == [] {
      assert a + b == a;
    } else {
      ItemsConcat(source, a, b[..|b| - 1]);
      assert (a + b)[..|a + b| - 1] == a + b[..|b| - 1] && (a + b)[|a + b| - 1] == b[|b| - 1];
    }
  }

  lemma ItemsSnoc(source: nat, ps: seq<Path>, p: Path)
    ensures Items(source, ps + [p]) == Items(source, ps) + [ItemOf(source, p)]
  {
    assert (ps + [p])[..|ps|] == ps;
  }

  lemma ItemsHead(source: nat, ps: seq<Path>)
    requires ps != []
    ensures Items(source, ps) == [ItemOf(source, ps[0])] + Items(source, ps[1..])
  {
    assert ps == [ps[0]] + ps[1..];
    ItemsConcat(source, [ps[0]], ps[1..]);
    ItemsOne(source, ps[0]);
  }

  lemma ItemsOne(source: nat, p: Path)
    ensures Items(source, [p]) == [ItemOf(source, p)]
  {
    assert [p][..0] == [];
  }

  lemma {:induction false} ItemsCount(source: nat, ps: seq<Path>)
    ensures |Items(source, ps)| == |ps|
  {
    if ps != [] {
      ItemsCount(source, ps[..|ps| - 1]);
    }
  }

  /** Extensions are queued only below the depth bound. */
  function Queued(deeper: bool, ps: seq<Path>): seq<Path> {
    if deeper then ps else []
  }

  lemma HitsSnoc(source: nat, target: nat, ps: seq<Path>, p: Path)
    ensures Hits(source, target, ps + [p]) == Hits(source, target, ps) + if End(source, p) == target then [p] else []
  {
    assert (ps + [p])[..|ps|] == ps;
  }

  lemma ExtendStep(p: Path, seen: seq<nat>, steps: seq<Step>, j: nat)
    requires j < |steps|
    ensures Extend(p, seen, steps[..j + 1]) == Extend(p, seen, steps[..j]) +
      if steps[j].next in seen then [] else [p + [steps[j]]]
  {
    assert steps[..j + 1][..j] == steps[..j];
  }

  lemma ItemSnoc(source: nat, p: Path, s: Step)
    ensures ItemOf(source, p + [s]) == Item(s.next, Nodes(source, p) + [s.next], p + [s])
  {
    assert (p + [s])[..|p|] == p;
  }

  /** The inner loop: one queue entry against its adjacency list. */
  method ExpandItem(source: nat, target: nat, item: Item, steps: seq<Step>, maxDepth: nat)
    returns (found: seq<Path>, more: seq<Item>)
    requires item == ItemOf(source, item.steps)
    ensures found == Hits(source, target, Extend(item.steps, item.nodes, steps))
    ensures more == Items(source, Queued(|item.steps| + 1 < maxDepth, Extend(item.steps, item.nodes, steps)))
  {
    found, more := [], [];
    ghost var ext: seq<Path> := [];
    for j := 0 to |steps|
      invariant ext == Extend(item.steps, item.nodes, steps[..j])
      invariant found == Hits(source, target, ext)
      invariant more == Items(source, Queued(|item.steps| + 1 < maxDepth, ext))
    {
      ExtendStep(item.steps, item.nodes, steps, j);
      if steps[j].next !in item.nodes {
        var nextNodes, nextSteps := item.nodes + [steps[j].next], item.steps + [steps[j]];
        ItemSnoc(source, item.steps, steps[j]);
        HitsSnoc(source, target, ext, nextSteps);
        ItemsSnoc(source, ext, nextSteps);
        ext := ext + [nextSteps];
        if steps[j].next == target {
          found := found + [nextSteps];
        }
        if |nextSteps| < maxDepth {
          more := more + [Item(steps[j].next, nextNodes, nextSteps)];
        }
      }
    }
    assert steps[..|steps|] == steps;
  }

  /**
    The search after `i` entries of a level: the rest of the level and what was reached so far are
    queued, and the rows hold the hits of all earlier levels and of what was reached.
    */
  ghost predicate Searched(source: nat, target: nat, deeper: bool, level: seq<Path>, i: nat, reached: seq<Path>,
                           prior: seq<Path>, queue: seq<Item>, rows: seq<Path>) {
    && i <= |level|
    && queue == Items(source, level[i..] + Queued(deeper, reached))
    && rows == prior + Hits(source, target, reached)
  }

  lemma TakeOne(source: nat, target: nat, deeper: bool, level: seq<Path>, i: nat, reached: seq<Path>, prior: seq<Path>,
                queue: seq<Item>, rows: seq<Path>, ext: seq<Path>)
    requires Searched(source, target, deeper, level, i, reached, prior, queue, rows) && i < |level|
    ensures queue != [] && queue[0] == ItemOf(source, level[i])
    ensures Searched(source, target, deeper, level, i + 1, reached + ext, prior,
                     queue[1..] + Items(source, Queued(deeper, ext)), rows + Hits(source, target, ext))
  {
    RowsAfterTake(source, target, prior, reached, ext);
    QueueAfterTake(source, level, i, Queued(deeper, reached), Queued(deeper, ext));
    assert Queued(deeper, reached + ext) == Queued(deeper, reached) + Queued(deeper, ext);
  }

  lemma RowsAfterTake(source: nat, target: nat, prior: seq<Path>, reached: seq<Path>, ext: seq<Path>)
    ensures (prior + Hits(source, target, reached)) + Hits(source, target, ext)
      == prior + Hits(source, target, reached + ext)
  {
    HitsConcat(source, target, reached, ext);
  }

  lemma QueueAfterTake(source: nat, level: seq<Path>, i: nat, a: seq<Path>, b: seq<Path>)
    requires i < |level|
    ensures var queue := Items(source, level[i..] + a);
            && queue != [] && queue[0] == ItemOf(source, level[i])
            && queue[1..] + Items(source, b) == Items(source, level[i + 1..] + (a + b))
  {
    var waiting := level[i..] + a;
    ItemsHead(source, waiting);
    ItemsConcat(source, waiting[1..], b);
    assert waiting[1..] + b == level[i + 1..] + (a + b);
  }

  /** When a level is used up, what was reached is the next level. */
  lemma LevelDone(source: nat, target: nat, deeper: bool, level: seq<Path>, reached: seq<Path>, prior: seq<Path>,
                  queue: seq<Item>, rows: seq<Path>, deeper': bool)
    requires Searched(source, target, deeper, level, |level|, reached, prior, queue, rows)
    ensures !deeper ==> queue == []
    ensures deeper ==> Searched(source, target, deeper', reached, 0, [], rows, queue, rows)
  {
    assert level[|level|..] == [];
    assert reached[0..] + Queued(deeper', []) == reached;
    assert [] + Queued(deeper, reached) == Queued(deeper, reached);
    assert rows + [] == rows;
  }

  /** The ghost state of the search names the levels it walks through. */
  ghost predicate AtLevel(adj: Adjacency, source: nat, target: nat, k: nat, level: seq<Path>, i: nat,
                          reached: seq<Path>, prior: seq<Path>) {
    && i <= |level|
    && level == Level(adj, source, k)
    && reached == ExtendAll(adj, source, level[..i])
    && prior == HitsUpTo(adj, source, target, k)
  }

  lemma AtLevelStep(adj: Adjacency, source: nat, target: nat, k: nat, level: seq<Path>, i: nat, reached: seq<Path>,
                    prior: seq<Path>)
    requires AtLevel(adj, source, target, k, level, i, reached, prior) && i < |level|
    ensures AtLevel(adj, source, target, k, level, i + 1, reached + Extensions(adj, source, level[i]), prior)
  {
    assert level[..i + 1] == level[..i] + [level[i]];
    ExtendAllConcat(adj, source, level[..i], level[i]);
  }

  lemma AtNextLevel(adj: Adjacency, source: nat, target: nat, k: nat, level: seq<Path>, reached: seq<Path>,
                    prior: seq<Path>, rows: seq<Path>)
    requires AtLevel(adj, source, target, k, level, |level|, reached, prior)
      && rows == prior + Hits(source, target, reached)
    ensures AtLevel(adj, source, target, k + 1, reached, 0, [], rows)
  {
    assert level[..|level|] == level;
  }

  lemma {:induction false} EmptyLevelsAddNothing(adj: Adjacency, source: nat, target: nat, k: nat, m: nat)
    requires k <= m && Level(adj, source, k) == []
    ensures Level(adj, source, m) == [] && HitsUpTo(adj, source, target, m) == HitsUpTo(adj, source, target, k)
    decreases m
  {
    if k < m {
      EmptyLevelsAddNothing(adj, source, target, k, m - 1);
      EmptyLevelThenNothing(adj, source, target, m - 1);
    }
  }

  lemma EmptyLevelThenNothing(adj: Adjacency, source: nat, target: nat, k: nat)
    requires Level(adj, source, k) == []
    ensures Level(adj, source, k + 1) == [] && HitsUpTo(adj, source, target, k + 1) == HitsUpTo(adj, source, target, k)
  {
  }

  lemma SearchStarts(adj: Adjacency, source: nat, target: nat, deeper: bool)
    ensures AtLevel(adj, source, target, 0, [[]], 0, [], [])
    ensures Searched(source, target, deeper, [[]], 0, [], [], [Item(source, [source], [])], [])
  {
    var start: seq<Path> := [[]];
    ItemsSnoc(source, [], []);
    assert start[0..] + Queued(deeper, []) == [] + [[]];
    assert start[..0] == [];
  }

  lemma Exhausted(adj: Adjacency, source: nat, target: nat, maxDepth: nat, k: nat, level: seq<Path>, i: nat,
                  reached: seq<Path>, prior: seq<Path>, rows: seq<Path>)
    requires k < maxDepth && AtLevel(adj, source, target, k, level, i, reached, prior) && i == |level|
    requires rows == prior + Hits(source, target, reached) && (k + 1 < maxDepth ==> level == [] || reached == [])
    ensures rows == HitsUpTo(adj, source, target, maxDepth)
  {
    AtNextLevel(adj, source, target, k, level, reached, prior, rows);
    if k + 1 < maxDepth {
      assert level[..i] == level;
      EmptyLevelsAddNothing(adj, source, target, k + 1, maxDepth);
    }
  }

  /** Where the search stands, in terms of the levels. */
  datatype Cursor = Cursor(k: nat, i: nat, level: seq<Path>, reached: seq<Path>, prior: seq<Path>)

  ghost predicate Searching(adj: Adjacency, source: nat, target: nat, maxDepth: nat, c: Cursor, queue: seq<Item>,
                            rows: seq<Path>) {
    && c.k < maxDepth && AtLevel(adj, source, target, c.k, c.level, c.i, c.reached, c.prior)
    && Searched(source, target, c.k + 1 < maxDepth, c.level, c.i, c.reached, c.prior, queue, rows)
    && (queue != [] <==> c.i < |c.level|)
  }

  ghost predicate Precedes(c: Cursor, d: Cursor) {
    c.k < d.k || (c.k == d.k && c.level == d.level && c.i < d.i <= |d.level|)
  }

  lemma Advance(adj: Adjacency, source: nat, target: nat, maxDepth: nat, c: Cursor, queue: seq<Item>, rows: seq<Path>)
    returns (d: Cursor)
    requires Searching(adj, source, target, maxDepth, c, queue, rows) && queue != []
    ensures c.i < |c.level| && queue[0] == ItemOf(source, c.level[c.i]) && |c.level[c.i]| == c.k
    ensures var ext := Extensions(adj, source, c.level[c.i]);
            Searching(adj, source, target, maxDepth, d,
                      queue[1..] + Items(source, Queued(c.k + 1 < maxDepth, ext)), rows + Hits(source, target, ext))
    ensures Precedes(c, d)
  {
    var p, deeper := c.level[c.i], c.k + 1 < maxDepth;
    var ext := Extensions(adj, source, p);
    d := c.(i := c.i + 1, reached := c.reached + ext);
    LevelPathLength(adj, source, target, c);
    TakeOne(source, target, deeper, c.level, c.i, c.reached, c.prior, queue, rows, ext);
    AtLevelStep(adj, source, target, c.k, c.level, c.i, c.reached, c.prior);
    d := Settle(adj, source, target, maxDepth, d,
                queue[1..] + Items(source, Queued(deeper, ext)), rows + Hits(source, target, ext));
  }

  /** The next level, if this one is used up and there is a deeper one. */
  lemma Settle(adj: Adjacency, source: nat, target: nat, maxDepth: nat, c: Cursor, queue: seq<Item>, rows: seq<Path>)
    returns (d: Cursor)
    requires c.k < maxDepth && AtLevel(adj, source, target, c.k, c.level, c.i, c.reached, c.prior)
    requires Searched(source, target, c.k + 1 < maxDepth, c.level, c.i, c.reached, c.prior, queue, rows)
    ensures Searching(adj, source, target, maxDepth, d, queue, rows)
    ensures d == c || d.k == c.k + 1
  {
    if c.i == |c.level| {
      d := TurnLevel(adj, source, target, maxDepth, c, queue, rows);
    } else {
      d := c;
      MidLevel(adj, source, target, maxDepth, c, queue, rows);
    }
  }

  lemma LevelPathLength(adj: Adjacency, source: nat, target: nat, c: Cursor)
    requires AtLevel(adj, source, target, c.k, c.level, c.i, c.reached, c.prior) && c.i < |c.level|
    ensures |c.level[c.i]| == c.k
  {
    assert c.level[c.i] in c.level;
    LevelExact(adj, source, c.k, c.level[c.i]);
  }

  lemma MidLevel(adj: Adjacency, source: nat, target: nat, maxDepth: nat, c: Cursor, queue: seq<Item>, rows: seq<Path>)
    requires c.k < maxDepth && AtLevel(adj, source, target, c.k, c.level, c.i, c.reached, c.prior) && c.i < |c.level|
    requires Searched(source, target, c.k + 1 < maxDepth, c.level, c.i, c.reached, c.prior, queue, rows)
    ensures Searching(adj, source, target, maxDepth, c, queue, rows)
  {
    QueueShowsLevel(source, target, c.k + 1 < maxDepth, c.level, c.i, c.reached, c.prior, queue, rows);
  }

  /** With nothing reached yet, or some of the level left, the queue is empty exactly when the level is used up. */
  lemma QueueShowsLevel(source: nat, target: nat, deeper: bool, level: seq<Path>, i: nat, reached: seq<Path>,
                        prior: seq<Path>, queue: seq<Item>, rows: seq<Path>)
    requires Searched(source, target, deeper, level, i, reached, prior, queue, rows)
    requires i < |level| || Queued(deeper, reached) == []
    ensures queue != [] <==> i < |level|
  {
    ItemsCount(source, level[i..] + Queued(deeper, reached));
  }

  lemma NextLevelSearching(adj: Adjacency, source: nat, target: nat, maxDepth: nat, c: Cursor, queue: seq<Item>,
                           rows: seq<Path>)
    requires c.k < maxDepth && c.i == 0 && c.reached == [] && AtLevel(adj, source, target, c.k, c.level, 0, [], c.prior)
    requires Searched(source, target, c.k + 1 < maxDepth, c.level, 0, [], c.prior, queue, rows)
    ensures Searching(adj, source, target, maxDepth, c, queue, rows)
  {
    QueueShowsLevel(source, target, c.k + 1 < maxDepth, c.level, 0, [], c.prior, queue, rows);
  }

  lemma TurnLevel(adj: Adjacency, source: nat, target: nat, maxDepth: nat, c: Cursor, queue: seq<Item>, rows: seq<Path>)
    returns (d: Cursor)
    requires c.k < maxDepth && AtLevel(adj, source, target, c.k, c.level, c.i, c.reached, c.prior) && c.i == |c.level|
    requires Searched(source, target, c.k + 1 < maxDepth, c.level, c.i, c.reached, c.prior, queue, rows)
    ensures Searching(adj, source, target, maxDepth, d, queue, rows)
    ensures d == c || d.k == c.k + 1
  {
    if c.k + 1 < maxDepth {
      d := Cursor(c.k + 1, 0, c.reached, [], rows);
      TurnDeeper(adj, source, target, maxDepth, c, d, queue, rows);
    } else {
      d := c;
      LevelDone(source, target, false, c.level, c.reached, c.prior, queue, rows, false);
    }
  }

  lemma TurnDeeper(adj: Adjacency, source: nat, target: nat, maxDepth: nat, c: Cursor, d: Cursor, queue: seq<Item>,
                   rows: seq<Path>)
    requires c.k + 1 < maxDepth && AtLevel(adj, source, target, c.k, c.level, c.i, c.reached, c.prior)
      && c.i == |c.level|
    requires Searched(source, target, true, c.level, c.i, c.reached, c.prior, queue, rows)
    requires d == Cursor(c.k + 1, 0, c.reached, [], rows)
    ensures Searching(adj, source, target, maxDepth, d, queue, rows)
  {
    LevelDone(source, target, true, c.level, c.reached, c.prior, queue, rows, c.k + 2 < maxDepth);
    AtNextLevel(adj, source, target, c.k, c.level, c.reached, c.prior, rows);
    NextLevelSearching(adj, source, target, maxDepth, d, queue, rows);
  }

  /** The search loop of `_enumerate_path_rows`. */
  method SearchQueue(adjacency: map<nat, seq<Step>>, ghost adj: Adjacency, source: nat, target: nat, maxDepth: nat)
    returns (rows: seq<Path>)
    requires maxDepth >= 1 && forall u :: Lookup(adjacency, u) == adj(u)
    ensures rows == HitsUpTo(adj, source, target, maxDepth)
  {
    var queue := [Item(source, [source], [])];
    rows := [];
    ghost var c := Cursor(0, 0, [[]], [], []);
    SearchStarts(adj, source, target, 1 < maxDepth);
    while queue != []
      invariant Searching(adj, source, target, maxDepth, c, queue, rows)
      decreases maxDepth - c.k, |c.level| - c.i
    {
      var item := queue[0];
      ghost var d := Advance(adj, source, target, maxDepth, c, queue, rows);
      if |item.steps| >= maxDepth {
        assert false;
      }
      var found, more := ExpandItem(source, target, item, Lookup(adjacency, item.current), maxDepth);
      queue, rows, c := queue[1..] + more, rows + found, d;
    }
    Exhausted(adj, source, target, maxDepth, c.k, c.level, c.i, c.reached, c.prior, rows);
  }

  /** `_enumerate_path_rows`. */
  method EnumeratePaths(edges: seq<Edge>, direction: Direction, source: nat, target: nat, maxDepth: nat)
    returns (rows: seq<Path>)
    requires maxDepth >= 1
    ensures rows == HitsUpTo(AdjacencyOf(edges, direction), source, target, maxDepth)
    ensures forall q: Path :: q in rows <==> IsAnswer(edges, direction, source, target, maxDepth, q)
  {
    var adjacency := TypedAdjacency(edges, direction);
    rows := SearchQueue(adjacency, AdjacencyOf(edges, direction), source, target, maxDepth);
    HitsAreAnswers(edges, direction, source, target, maxDepth, rows);
  }

  lemma HitsAreAnswers(edges: seq<Edge>, direction: Direction, source: nat, target: nat, maxDepth: nat, rows: seq<Path>)
    requires rows == HitsUpTo(AdjacencyOf(edges, direction), source, target, maxDepth)
    ensures forall q: Path :: q in rows <==> IsAnswer(edges, direction, source, target, maxDepth, q)
  {
    forall q: Path
      ensures q in rows <==> IsAnswer(edges, direction, source, target, maxDepth, q)
    {
      InHitsUpTo(AdjacencyOf(edges, direction), source, target, maxDepth, q);
      SimpleIsRoute(edges, direction, source, q);
    }
  }
}
