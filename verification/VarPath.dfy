/** Variable-length expansion (exec/operators/var_path.py). */
module VarPath {
  import opened Results
  import opened Walks
  import opened Seqs
  import opened CsrBuilder
  import opened CsrReader

  // A level-by-level search from all seeds at once that keeps each (seed, vertex) pair the first time it is reached.

  type Pair = (nat, nat)

  ghost function EdgeSet(csr: Csr): set<Pair>
    requires Readable(csr)
  {
    set u, v | u in Below(NumVertices(csr)) && v in Neighbors(csr, u) :: (u, v)
  }

  /** Reached in exactly `k` hops, and in no smaller count from `lo` on. */
  ghost predicate FirstAt(edges: set<Pair>, pair: Pair, lo: nat, k: nat) {
    Hops(edges, pair.0, pair.1, k) && forall j :: lo <= j < k ==> !Hops(edges, pair.0, pair.1, j)
  }

  /** Reached in some count between `lo` and `k`. */
  ghost predicate ReachedBy(edges: set<Pair>, pair: Pair, lo: nat, k: nat) {
    exists j :: lo <= j <= k && Hops(edges, pair.0, pair.1, j)
  }

  // ---------------------------------------------------------------- one level

  lemma StepFromFrontier(edges: set<Pair>, s: nat, d: nat, d': nat, lo: nat, k: nat)
    requires FirstAt(edges, (s, d), lo, k) && (d, d') in edges && !ReachedBy(edges, (s, d'), lo, k)
    ensures FirstAt(edges, (s, d'), lo, k + 1)
  {
    HopsOne(edges, d, d');
    HopsConcat(edges, s, d, d', k, 1);
  }

  /** The predecessor on a first-time walk was itself reached for the first time. */
  lemma FrontierHasPredecessor(edges: set<Pair>, s: nat, d': nat, lo: nat, k: nat) returns (d: nat)
    requires FirstAt(edges, (s, d'), lo, k + 1)
    ensures FirstAt(edges, (s, d), lo, k) && (d, d') in edges
  {
    d := HopsSplit(edges, s, d', k, 1);
    HopsOne(edges, d, d');
    forall j | lo <= j < k
      ensures !Hops(edges, s, d, j)
    {
      if Hops(edges, s, d, j) {
        HopsConcat(edges, s, d, d', j, 1);
      }
    }
  }

  /** The frontier holds exactly the pairs first reached at level `k`. */
  ghost predicate IsFrontier(edges: set<Pair>, seeds: seq<nat>, lo: nat, k: nat, frontier: seq<Pair>) {
    forall pair: Pair :: pair in frontier <==> pair.0 in seeds && FirstAt(edges, pair, lo, k)
  }

  ghost predicate IsSeen(edges: set<Pair>, seeds: seq<nat>, lo: nat, k: nat, seen: set<Pair>) {
    forall pair: Pair :: pair in seen <==> pair.0 in seeds && ReachedBy(edges, pair, lo, k)
  }

  ghost predicate Emitted(edges: set<Pair>, seeds: seq<nat>, lo: nat, hopMin: nat, k: nat, pair: Pair) {
    pair.0 in seeds && exists j :: hopMin <= j <= k && FirstAt(edges, pair, lo, j)
  }

  ghost predicate IsOutput(edges: set<Pair>, seeds: seq<nat>, lo: nat, hopMin: nat, k: nat, out: seq<Pair>) {
    Distinct(out) && forall pair: Pair :: pair in out <==> Emitted(edges, seeds, lo, hopMin, k, pair)
  }

  /** Candidates of a level: every frontier pair moved along every edge of its vertex. */
  ghost predicate IsCandidates(edges: set<Pair>, frontier: seq<Pair>, candidates: seq<Pair>) {
    forall s: nat, d': nat :: (s, d') in candidates <==> Moves(edges, frontier, s, d')
  }

  /** The pairs that are new, in order, each once. */
  method Sift(candidates: seq<Pair>, seen: set<Pair>) returns (news: seq<Pair>, seen': set<Pair>)
    ensures Distinct(news) && forall pair :: pair in news <==> pair in candidates && pair !in seen
    ensures forall pair :: pair in seen' <==> pair in seen || pair in candidates
  {
    news, seen' := [], seen;
    for i := 0 to |candidates|
      invariant Distinct(news) && forall pair :: pair in news <==> pair in candidates[..i] && pair !in seen
      invariant forall pair :: pair in seen' <==> pair in seen || pair in candidates[..i]
    {
      var pair := candidates[i];
      assert candidates[..i + 1] == candidates[..i] + [pair];
      if pair !in seen' {
        DistinctSnoc(news, pair);
        seen' := seen' + {pair};
        news := news + [pair];
      }
    }
    assert candidates[..|candidates|] == candidates;
  }

  lemma NextFrontier(edges: set<Pair>, seeds: seq<nat>, lo: nat, k: nat, frontier: seq<Pair>, seen: set<Pair>,
                     candidates: seq<Pair>, news: seq<Pair>)
    requires IsFrontier(edges, seeds, lo, k, frontier) && IsSeen(edges, seeds, lo, k, seen) && lo <= k + 1
    requires IsCandidates(edges, frontier, candidates)
    requires forall pair :: pair in news <==> pair in candidates && pair !in seen
    ensures IsFrontier(edges, seeds, lo, k + 1, news)
  {
    forall s: nat, d': nat
      ensures (s, d') in news <==> s in seeds && FirstAt(edges, (s, d'), lo, k + 1)
    {
      if (s, d') in news {
        var d :| (s, d) in frontier && (d, d') in edges;
        assert FirstAt(edges, (s, d), lo, k);
        StepFromFrontier(edges, s, d, d', lo, k);
      }
      if s in seeds && FirstAt(edges, (s, d'), lo, k + 1) {
        var d := FrontierHasPredecessor(edges, s, d', lo, k);
        assert (s, d) in frontier;
      }
    }
  }

  lemma NextSeen(edges: set<Pair>, seeds: seq<nat>, lo: nat, k: nat, seen: set<Pair>, news: seq<Pair>, seen': set<Pair>)
    requires IsSeen(edges, seeds, lo, k, seen) && IsFrontier(edges, seeds, lo, k + 1, news) && lo <= k + 1
    requires forall pair :: pair in seen' <==> pair in seen || pair in news
    ensures IsSeen(edges, seeds, lo, k + 1, seen')
  {
    forall pair: Pair
      ensures pair in seen' <==> pair.0 in seeds && ReachedBy(edges, pair, lo, k + 1)
    {
      if pair.0 in seeds && ReachedBy(edges, pair, lo, k + 1) && pair !in seen {
        assert !ReachedBy(edges, pair, lo, k);
        assert FirstAt(edges, pair, lo, k + 1);
      }
    }
  }

  lemma NextOutput(edges: set<Pair>, seeds: seq<nat>, lo: nat, hopMin: nat, k: nat, out: seq<Pair>, news: seq<Pair>)
    requires IsOutput(edges, seeds, lo, hopMin, k, out) && IsFrontier(edges, seeds, lo, k + 1, news) && Distinct(news)
    requires lo <= hopMin
    ensures IsOutput(edges, seeds, lo, hopMin, k + 1, out + if k + 1 >= hopMin then news else [])
  {
    var more := if k + 1 >= hopMin then news else [];
    forall pair | pair in more
      ensures pair !in out
    {
      assert FirstAt(edges, pair, lo, k + 1);
    }
    DistinctConcat(out, more);
    forall pair: Pair
      ensures pair in out + more <==> Emitted(edges, seeds, lo, hopMin, k + 1, pair)
    {
      if Emitted(edges, seeds, lo, hopMin, k + 1, pair) && pair !in out {
        var j :| hopMin <= j <= k + 1 && FirstAt(edges, pair, lo, j);
        assert j == k + 1;
      }
    }
  }

  // ---------------------------------------------------------------- the CSR fan-out of a level

  /** Origins repeated by degree, against the batched neighbours. */
  function Candidates(csr: Csr, origins: seq<nat>, vertices: seq<nat>): (r: seq<Pair>)
    requires Readable(csr) && |origins| == |vertices| && AllBelow(vertices, NumVertices(csr))
  {
    RepeatLength(origins, Degrees(csr, vertices));
    FanOutIsConcatenation(csr, vertices, false);
    RepeatAligned(vertices, Lists(csr, csr.neighbors, vertices), Degrees(csr, vertices));
    Zip(Repeat(origins, Degrees(csr, vertices)), FanOut(csr, vertices, false).dst)
  }

  /** The repeated origins stay aligned with the fan-out: the pairs are exactly the frontier's moves. */
  lemma CandidatesAreMoves(csr: Csr, origins: seq<nat>, vertices: seq<nat>)
    requires Readable(csr) && |origins| == |vertices| && AllBelow(vertices, NumVertices(csr))
    ensures IsCandidates(EdgeSet(csr), Zip(origins, vertices), Candidates(csr, origins, vertices))
  {
    forall s: nat, d': nat
      ensures (s, d') in Candidates(csr, origins, vertices) <==> Moves(EdgeSet(csr), Zip(origins, vertices), s, d')
    {
      CandidateIsMove(csr, origins, vertices, s, d');
    }
  }

  /** One edge leads from a frontier pair `(s, d)` to `d'`. */
  ghost predicate Moves(edges: set<Pair>, frontier: seq<Pair>, s: nat, d': nat) {
    exists d: nat :: (s, d) in frontier && (d, d') in edges
  }

  lemma CandidateIsMove(csr: Csr, origins: seq<nat>, vertices: seq<nat>, s: nat, d': nat)
    requires Readable(csr) && |origins| == |vertices| && AllBelow(vertices, NumVertices(csr))
    ensures (s, d') in Candidates(csr, origins, vertices) <==> Moves(EdgeSet(csr), Zip(origins, vertices), s, d')
  {
    CandidateAt(csr, origins, vertices, s, d');
    if (s, d') in Candidates(csr, origins, vertices) {
      var i :| 0 <= i < |vertices| && origins[i] == s && d' in Neighbors(csr, vertices[i]);
      MoveAt(csr, origins, vertices, i, d');
      assert (vertices[i], d') in EdgeSet(csr);
    }
    if Moves(EdgeSet(csr), Zip(origins, vertices), s, d') {
      MoveIsCandidate(csr, origins, vertices, s, d');
    }
  }

  lemma MoveIsCandidate(csr: Csr, origins: seq<nat>, vertices: seq<nat>, s: nat, d': nat)
    requires Readable(csr) && |origins| == |vertices| && AllBelow(vertices, NumVertices(csr))
    requires Moves(EdgeSet(csr), Zip(origins, vertices), s, d')
    ensures exists i :: 0 <= i < |vertices| && origins[i] == s && d' in Neighbors(csr, vertices[i])
  {
    var d: nat :| (s, d) in Zip(origins, vertices) && (d, d') in EdgeSet(csr);
    var i :| 0 <= i < |vertices| && Zip(origins, vertices)[i] == (s, d);
    MoveAt(csr, origins, vertices, i, d');
  }

  lemma MoveAt(csr: Csr, origins: seq<nat>, vertices: seq<nat>, i: nat, d': nat)
    requires Readable(csr) && |origins| == |vertices| && AllBelow(vertices, NumVertices(csr)) && i < |vertices|
    ensures (origins[i], vertices[i]) in Zip(origins, vertices)
    ensures d' in Neighbors(csr, vertices[i]) <==> (vertices[i], d') in EdgeSet(csr)
  {
    assert Zip(origins, vertices)[i] == (origins[i], vertices[i]);
  }

  lemma CandidateAt(csr: Csr, origins: seq<nat>, vertices: seq<nat>, s: nat, d': nat)
    requires Readable(csr) && |origins| == |vertices| && AllBelow(vertices, NumVertices(csr))
    ensures (s, d') in Candidates(csr, origins, vertices) <==>
      exists i :: 0 <= i < |vertices| && origins[i] == s && d' in Neighbors(csr, vertices[i])
  {
    var lists := Lists(csr, csr.neighbors, vertices);
    var labelled := Labelled(origins, lists);
    FanOutIsConcatenation(csr, vertices, false);
    RepeatAligned(origins, lists, Degrees(csr, vertices));
    assert Candidates(csr, origins, vertices) == Flatten(labelled);
    InFlatten(labelled, (s, d'));
    forall i | 0 <= i < |vertices|
      ensures (s, d') in labelled[i] <==> origins[i] == s && d' in Neighbors(csr, vertices[i])
    {
      InLabelled(origins, lists, i, s, d');
    }
  }

  // ---------------------------------------------------------------- the traversal

  ghost predicate NothingNew(edges: set<Pair>, seeds: seq<nat>, lo: nat, k: nat) {
    forall pair: Pair :: pair.0 in seeds ==> !FirstAt(edges, pair, lo, k)
  }

  /** When nothing is new at one level, nothing is new at any later one. */
  lemma {:induction false} StaysExhausted(edges: set<Pair>, seeds: seq<nat>, lo: nat, k: nat, m: nat)
    requires NothingNew(edges, seeds, lo, k) && k <= m
    ensures NothingNew(edges, seeds, lo, m)
    decreases m
  {
    if k < m {
      StaysExhausted(edges, seeds, lo, k, m - 1);
      forall s: nat, d': nat | s in seeds
        ensures !FirstAt(edges, (s, d'), lo, m)
      {
        if FirstAt(edges, (s, d'), lo, m) {
          var d := FrontierHasPredecessor(edges, s, d', lo, m - 1);
        }
      }
    }
  }

  lemma OutputIsFinal(edges: set<Pair>, seeds: seq<nat>, lo: nat, hopMin: nat, k: nat, m: nat, out: seq<Pair>)
    requires IsOutput(edges, seeds, lo, hopMin, k, out) && k <= m
    requires k == m || NothingNew(edges, seeds, lo, k + 1)
    ensures IsOutput(edges, seeds, lo, hopMin, m, out)
  {
    forall pair: Pair
      ensures Emitted(edges, seeds, lo, hopMin, k, pair) <==> Emitted(edges, seeds, lo, hopMin, m, pair)
    {
      if Emitted(edges, seeds, lo, hopMin, m, pair) {
        var j :| hopMin <= j <= m && FirstAt(edges, pair, lo, j);
        if j > k {
          StaysExhausted(edges, seeds, lo, k + 1, j);
        }
      }
    }
  }

  /** The state between two levels. */
  ghost predicate Between(edges: set<Pair>, seeds: seq<nat>, lo: nat, hopMin: nat, k: nat, frontier: seq<Pair>,
                          seen: set<Pair>, out: seq<Pair>) {
    && IsFrontier(edges, seeds, lo, k, frontier)
    && IsSeen(edges, seeds, lo, k, seen)
    && IsOutput(edges, seeds, lo, hopMin, k, out)
  }

  lemma NextLevel(edges: set<Pair>, seeds: seq<nat>, lo: nat, hopMin: nat, k: nat, frontier: seq<Pair>,
                  seen: set<Pair>, out: seq<Pair>,
                  candidates: seq<Pair>, news: seq<Pair>, seen': set<Pair>)
    requires Between(edges, seeds, lo, hopMin, k, frontier, seen, out) && lo <= 1 && lo <= hopMin
    requires IsCandidates(edges, frontier, candidates)
    requires Distinct(news) && forall pair :: pair in news <==> pair in candidates && pair !in seen
    requires forall pair :: pair in seen' <==> pair in seen || pair in candidates
    ensures Between(edges, seeds, lo, hopMin, k + 1, news, seen', out + if k + 1 >= hopMin then news else [])
  {
    NextFrontier(edges, seeds, lo, k, frontier, seen, candidates, news);
    NextSeen(edges, seeds, lo, k, seen, news, seen');
    NextOutput(edges, seeds, lo, hopMin, k, out, news);
  }

  /** Whatever is first reached at the next level is a candidate of this one. */
  lemma NewsAreCandidates(edges: set<Pair>, seeds: seq<nat>, lo: nat, k: nat, frontier: seq<Pair>,
                          candidates: seq<Pair>)
    requires IsFrontier(edges, seeds, lo, k, frontier) && IsCandidates(edges, frontier, candidates)
    ensures forall pair: Pair :: pair.0 in seeds && FirstAt(edges, pair, lo, k + 1) ==> pair in candidates
  {
    forall s: nat, d': nat | s in seeds && FirstAt(edges, (s, d'), lo, k + 1)
      ensures (s, d') in candidates
    {
      var d := FrontierHasPredecessor(edges, s, d', lo, k);
      assert (s, d) in frontier;
    }
  }

  /** Hop 0: the seeds themselves, emitted and remembered only when `hop_min` is 0. */
  method HopZero(ghost edges: set<Pair>, seeds: seq<nat>, hopMin: nat) returns (out: seq<Pair>, seen: set<Pair>)
    ensures Between(edges, seeds, if hopMin == 0 then 0 else 1, hopMin, 0, Zip(seeds, seeds), seen, out)
  {
    out, seen := [], {};
    if hopMin == 0 {
      out, seen := Sift(Zip(seeds, seeds), {});
    }
    ghost var lo := if hopMin == 0 then 0 else 1;
    forall pair: Pair
      ensures pair in Zip(seeds, seeds) <==> pair.0 in seeds && FirstAt(edges, pair, lo, 0)
      ensures hopMin == 0 ==> (FirstAt(edges, pair, lo, 0) <==> ReachedBy(edges, pair, lo, 0))
    {
      HopsZero(edges, pair.0, pair.1);
      if pair.0 in seeds && pair.0 == pair.1 {
        var i :| 0 <= i < |seeds| && seeds[i] == pair.0;
        assert Zip(seeds, seeds)[i] == pair;
      }
      if pair in Zip(seeds, seeds) {
        var i :| 0 <= i < |seeds| && Zip(seeds, seeds)[i] == pair;
      }
      if FirstAt(edges, pair, lo, 0) {
        assert hopMin == 0 ==> lo <= 0 <= 0 && Hops(edges, pair.0, pair.1, 0);
      }
    }
  }

  /** The body of the hop loop: fan out, then keep the new pairs. */
  method OneLevel(csr: Csr, ghost seeds: seq<nat>, ghost lo: nat, ghost hopMin: nat, ghost k: nat,
                  origins: seq<nat>, vertices: seq<nat>, seen: set<Pair>, ghost out: seq<Pair>)
    returns (news: seq<Pair>, seen': set<Pair>, done: bool)
    requires Readable(csr) && |origins| == |vertices| && AllBelow(vertices, NumVertices(csr)) && lo <= 1 && lo <= hopMin
    requires Between(EdgeSet(csr), seeds, lo, hopMin, k, Zip(origins, vertices), seen, out)
    ensures done ==> NothingNew(EdgeSet(csr), seeds, lo, k + 1)
    ensures !done ==>
      Between(EdgeSet(csr), seeds, lo, hopMin, k + 1, news, seen', out + if k + 1 >= hopMin then news else [])
  {
    var candidates := Candidates(csr, origins, vertices);
    CandidatesAreMoves(csr, origins, vertices);
    done := candidates == [];
    news, seen' := Sift(candidates, seen);
    NewsAreCandidates(EdgeSet(csr), seeds, lo, k, Zip(origins, vertices), candidates);
    if !done {
      NextLevel(EdgeSet(csr), seeds, lo, hopMin, k, Zip(origins, vertices), seen, out, candidates, news, seen');
    }
  }

  // ---------------------------------------------------------------- staying inside the vertex space

  /** Every vertex fewer than `hops` hops from a seed is below `n`. */
  ghost predicate StaysInside(edges: set<Pair>, seeds: seq<nat>, hops: int, n: nat) {
    forall s: nat, d: nat, k: nat :: s in seeds && k < hops && Hops(edges, s, d, k) ==> d < n
  }

  ghost predicate FirstsInside(edges: set<Pair>, seeds: seq<nat>, lo: nat, hops: nat, n: nat) {
    forall s: nat, d: nat, k: nat :: s in seeds && k < hops && FirstAt(edges, (s, d), lo, k) ==> d < n
  }

  lemma {:induction false} FirstExists(edges: set<Pair>, s: nat, d: nat, lo: nat, k: nat) returns (j: nat)
    requires Hops(edges, s, d, k)
    ensures j <= k && FirstAt(edges, (s, d), lo, j)
  {
    if i: nat :| lo <= i < k && Hops(edges, s, d, i) {
      j := FirstExists(edges, s, d, lo, i);
    } else {
      j := k;
    }
  }

  lemma FirstsSuffice(edges: set<Pair>, seeds: seq<nat>, lo: nat, hops: nat, n: nat)
    requires FirstsInside(edges, seeds, lo, hops, n)
    ensures StaysInside(edges, seeds, hops, n)
  {
    forall s: nat, d: nat, k: nat | s in seeds && k < hops && Hops(edges, s, d, k)
      ensures d < n
    {
      var j := FirstExists(edges, s, d, lo, k);
    }
  }

  lemma FrontierInside(edges: set<Pair>, seeds: seq<nat>, lo: nat, k: nat, origins: seq<nat>, vertices: seq<nat>,
                       n: nat)
    requires |origins| == |vertices| && AllBelow(vertices, n)
    requires IsFrontier(edges, seeds, lo, k, Zip(origins, vertices)) && FirstsInside(edges, seeds, lo, k, n)
    ensures FirstsInside(edges, seeds, lo, k + 1, n)
  {
    forall s: nat, d: nat, j: nat | s in seeds && j < k + 1 && FirstAt(edges, (s, d), lo, j)
      ensures d < n
    {
      if j == k {
        var i :| 0 <= i < |vertices| && Zip(origins, vertices)[i] == (s, d);
      }
    }
  }

  lemma NoLaterFirsts(edges: set<Pair>, seeds: seq<nat>, lo: nat, k: nat, m: nat, n: nat)
    requires FirstsInside(edges, seeds, lo, k, n) && NothingNew(edges, seeds, lo, k)
    ensures FirstsInside(edges, seeds, lo, m, n)
  {
    forall s: nat, d: nat, j: nat | s in seeds && j < m && FirstAt(edges, (s, d), lo, j)
      ensures d < n
    {
      if j >= k {
        StaysExhausted(edges, seeds, lo, k, j);
      }
    }
  }

  function Origins(pairs: seq<Pair>): (r: seq<nat>)
    ensures |r| == |pairs| && forall i :: 0 <= i < |r| ==> r[i] == pairs[i].0
  {
    seq(|pairs|, i requires 0 <= i < |pairs| => pairs[i].0)
  }

  function Vertices(pairs: seq<Pair>): (r: seq<nat>)
    ensures |r| == |pairs| && forall i :: 0 <= i < |r| ==> r[i] == pairs[i].1
  {
    seq(|pairs|, i requires 0 <= i < |pairs| => pairs[i].1)
  }

  /**
    `VarPathOperator`: each pair comes out once, and exactly those whose least hop count lies in the range.
    An empty frontier has no candidates, so both early exits of the loop are the one below.
    */
  method Traverse(csr: Csr, seeds: seq<nat>, hopMin: int, hopMax: int) returns (r: Result<seq<Pair>>)
    requires Readable(csr)
    ensures r.Ok? <==> 0 <= hopMin <= hopMax && StaysInside(EdgeSet(csr), seeds, hopMax, NumVertices(csr))
    ensures r.Ok? ==> IsOutput(EdgeSet(csr), seeds, if hopMin == 0 then 0 else 1, hopMin, hopMax, r.value)
  {
    if hopMin < 0 || hopMax < hopMin {
      return Err("CDB-6031");
    }
    ghost var edges, lo := EdgeSet(csr), if hopMin == 0 then 0 else 1;
    var out, seen := HopZero(edges, seeds, hopMin);
    var origins, vertices := seeds, seeds;
    var hop := 0;
    while hop < hopMax
      invariant 0 <= hop <= hopMax && |origins| == |vertices|
      invariant Between(edges, seeds, lo, hopMin, hop, Zip(origins, vertices), seen, out)
      invariant FirstsInside(edges, seeds, lo, hop, NumVertices(csr))
    {
      if i :| 0 <= i < |vertices| && vertices[i] >= NumVertices(csr) {
        assert Zip(origins, vertices)[i] == (origins[i], vertices[i]) && Hops(edges, origins[i], vertices[i], hop);
        return Err("CDB-7083");
      }
      var news, seen', done := OneLevel(csr, seeds, lo, hopMin, hop, origins, vertices, seen, out);
      FrontierInside(edges, seeds, lo, hop, origins, vertices, NumVertices(csr));
      if done {
        OutputIsFinal(edges, seeds, lo, hopMin, hop, hopMax, out);
        NoLaterFirsts(edges, seeds, lo, hop + 1, hopMax, NumVertices(csr));
        FirstsSuffice(edges, seeds, lo, hopMax, NumVertices(csr));
        return Ok(out);
      }
      hop := hop + 1;
      out := out + if hop >= hopMin then news else [];
      origins, vertices, seen := Origins(news), Vertices(news), seen';
      assert Zip(origins, vertices) == news;
    }
    FirstsSuffice(edges, seeds, lo, hopMax, NumVertices(csr));
    r := Ok(out);
  }
}
