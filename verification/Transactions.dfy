/** Write-write conflict detection (tx/manager.py): first committer wins, over every interleaving. */
module Transactions {
  import opened Results

  type Lsn = nat
  type Key = (string, string)

  /** The manager's fields, with the log reduced to its LSN counter. */
  datatype Manager = Manager(lastLsn: Lsn, nextTx: nat, committed: map<Key, Lsn>)

  datatype Tx = Tx(id: nat, snapshot: Lsn, writes: set<Key>, committedLsn: Option<Lsn>)

  // ---------------------------------------------------------------- operations

  /** `begin`: an explicit snapshot, or the log's end before the BEGIN record. */
  function Begin(m: Manager, snapshot: Option<Lsn>): (Manager, Tx) {
    (m.(lastLsn := m.lastLsn + 1, nextTx := m.nextTx + 1),
     Tx(m.nextTx, if snapshot.Some? then snapshot.value else m.lastLsn, {}, None))
  }

  /** Someone committed this key after the transaction's snapshot. */
  predicate Clashes(m: Manager, t: Tx, key: Key) {
    key in m.committed && m.committed[key] > t.snapshot
  }

  predicate Conflicts(m: Manager, t: Tx) {
    exists key :: key in t.writes && Clashes(m, t, key)
  }

  function Stamped(committed: map<Key, Lsn>, keys: set<Key>, lsn: Lsn): map<Key, Lsn> {
    committed + map key | key in keys :: lsn
  }

  /** `commit` of a transaction without conflicts. */
  function Commit(m: Manager, t: Tx): (Manager, Tx) {
    var lsn := m.lastLsn + 1;
    (m.(lastLsn := lsn, committed := Stamped(m.committed, t.writes, lsn)), t.(committedLsn := Some(lsn)))
  }

  function Rollback(m: Manager, t: Tx): (Manager, Tx) {
    (m.(lastLsn := m.lastLsn + 1), t.(writes := {}))
  }

  // ---------------------------------------------------------------- interleavings

  datatype Committed = Committed(tx: nat, snapshot: Lsn, writes: set<Key>, lsn: Lsn)

  /** The manager, the transactions it handed out, and the history of successful commits. */
  datatype World = World(m: Manager, txs: map<nat, Tx>, history: seq<Committed>)

  datatype Op =
    | BeginTx(snapshot: Option<Lsn>)
    | RecordWrite(tx: nat, key: Key)
    | CommitTx(tx: nat)
    | RollbackTx(tx: nat)
    | OtherRecords(count: nat)

  predicate Step(w: World, op: Op, w': World) {
    match op
    case BeginTx(snapshot) =>
      var (m, t) := Begin(w.m, snapshot);
      w' == World(m, w.txs[t.id := t], w.history)
    case RecordWrite(tx, key) =>
      && tx in w.txs
      && w' == w.(txs := w.txs[tx := w.txs[tx].(writes := w.txs[tx].writes + {key})])
    case CommitTx(tx) =>
      && tx in w.txs
      && var t := w.txs[tx];
        if Conflicts(w.m, t) then w' == w
        else
          var (m, t') := Commit(w.m, t);
          w' == World(m, w.txs[tx := t'], w.history + [Committed(tx, t.snapshot, t.writes, m.lastLsn)])
    case RollbackTx(tx) =>
      && tx in w.txs
      && var (m, t') := Rollback(w.m, w.txs[tx]);
        w' == World(m, w.txs[tx := t'], w.history)
    case OtherRecords(count) =>
      w' == w.(m := w.m.(lastLsn := w.m.lastLsn + count))
  }

  // ---------------------------------------------------------------- what every interleaving keeps

  /** Commits are numbered upward, below the end of the log. */
  predicate Ordered(history: seq<Committed>, lastLsn: Lsn) {
    && (forall i, j :: 0 <= i < j < |history| ==> history[i].lsn < history[j].lsn)
    && (forall i :: 0 <= i < |history| ==> history[i].lsn <= lastLsn)
  }

  /** The LSN of the last commit that wrote `key`. */
  function LastWriter(history: seq<Committed>, key: Key): Option<Lsn> {
    if history == [] then None
    else if key in history[|history| - 1].writes then Some(history[|history| - 1].lsn)
    else LastWriter(history[..|history| - 1], key)
  }

  predicate Recorded(m: Manager, history: seq<Committed>, key: Key) {
    (if key in m.committed then Some(m.committed[key]) else None) == LastWriter(history, key)
  }

  /** Two commits that share a key: the later one had seen the earlier. */
  predicate FirstCommitterWins(a: Committed, b: Committed) {
    a.writes * b.writes != {} ==> a.lsn <= b.snapshot
  }

  ghost predicate Inv(w: World) {
    && Ordered(w.history, w.m.lastLsn)
    && (forall key :: Recorded(w.m, w.history, key))
    && (forall i, j :: 0 <= i < j < |w.history| ==> FirstCommitterWins(w.history[i], w.history[j]))
  }

  /** `LastWriter` is the greatest commit LSN among the writers of the key. */
  lemma {:induction false} LastWriterIsGreatest(history: seq<Committed>, lastLsn: Lsn, key: Key)
    requires Ordered(history, lastLsn)
    ensures LastWriter(history, key) == None <==> forall i :: 0 <= i < |history| ==> key !in history[i].writes
    ensures LastWriter(history, key).Some? ==>
      && (exists i ::
            0 <= i < |history| && key in history[i].writes && history[i].lsn == LastWriter(history, key).value)
      && (forall i :: 0 <= i < |history| && key in history[i].writes ==>
          history[i].lsn <= LastWriter(history, key).value)
  {
    if history != [] {
      var n := |history| - 1;
      LastWriterIsGreatest(history[..n], lastLsn, key);
      assert forall i :: 0 <= i < n ==> history[..n][i] == history[i];
      LastWriterWrote(history, key);
    }
  }

  lemma {:induction false} LastWriterWrote(history: seq<Committed>, key: Key)
    ensures LastWriter(history, key).Some? ==>
      exists i :: 0 <= i < |history| && key in history[i].writes && history[i].lsn == LastWriter(history, key).value
  {
    if history != [] && LastWriter(history, key).Some? {
      var n := |history| - 1;
      if key !in history[n].writes {
        LastWriterWrote(history[..n], key);
        var i :| 0 <= i < n && key in history[..n][i].writes && history[..n][i].lsn == LastWriter(history, key).value;
        assert history[i] == history[..n][i];
      }
    }
  }

  lemma CommitRecords(m: Manager, t: Tx, history: seq<Committed>, key: Key)
    requires Recorded(m, history, key)
    ensures Recorded(Commit(m, t).0, history + [Committed(t.id, t.snapshot, t.writes, m.lastLsn + 1)], key)
  {
    var longer := history + [Committed(t.id, t.snapshot, t.writes, m.lastLsn + 1)];
    assert longer[..|history|] == history;
  }

  lemma NoConflictMeansSeen(w: World, t: Tx, i: nat)
    requires Inv(w) && !Conflicts(w.m, t) && i < |w.history| && w.history[i].writes * t.writes != {}
    ensures w.history[i].lsn <= t.snapshot
  {
    var key :| key in w.history[i].writes * t.writes;
    assert Recorded(w.m, w.history, key);
    LastWriterIsGreatest(w.history, w.m.lastLsn, key);
    assert !Clashes(w.m, t, key);
  }

  lemma CommitKeeps(w: World, tx: nat, w': World)
    requires Inv(w) && tx in w.txs && w.txs[tx].id == tx && !Conflicts(w.m, w.txs[tx]) && Step(w, CommitTx(tx), w')
    ensures Inv(w')
  {
    var t, n := w.txs[tx], |w.history|;
    var entry := Committed(tx, t.snapshot, t.writes, w.m.lastLsn + 1);
    assert w'.history == w.history + [entry] && w'.m == Commit(w.m, t).0;
    forall key
      ensures Recorded(w'.m, w'.history, key)
    {
      assert Recorded(w.m, w.history, key);
      CommitRecords(w.m, t, w.history, key);
    }
    forall i, j | 0 <= i < j < |w'.history|
      ensures FirstCommitterWins(w'.history[i], w'.history[j])
    {
      if j < n {
        assert FirstCommitterWins(w.history[i], w.history[j]);
      } else if w.history[i].writes * t.writes != {} {
        NoConflictMeansSeen(w, t, i);
      }
    }
  }

  ghost predicate Named(w: World) {
    forall tx :: tx in w.txs ==> w.txs[tx].id == tx
  }

  /** Every step of every client keeps the invariant. */
  lemma StepKeeps(w: World, op: Op, w': World)
    requires Inv(w) && Named(w) && Step(w, op, w')
    ensures Inv(w') && Named(w')
  {
    if op.CommitTx? && !Conflicts(w.m, w.txs[op.tx]) {
      CommitKeeps(w, op.tx, w');
    } else {
      assert w'.history == w.history && w'.m.committed == w.m.committed && w'.m.lastLsn >= w.m.lastLsn;
      forall key
        ensures Recorded(w'.m, w'.history, key)
      {
        assert Recorded(w.m, w.history, key);
      }
    }
  }

  ghost predicate Run(worlds: seq<World>, ops: seq<Op>, lastLsn: Lsn) {
    && |worlds| == |ops| + 1 && worlds[0] == World(Manager(lastLsn, 1, map[]), map[], [])
    && forall i :: 0 <= i < |ops| ==> Step(worlds[i], ops[i], worlds[i + 1])
  }

  lemma {:induction false} RunKeeps(worlds: seq<World>, ops: seq<Op>, lastLsn: Lsn, n: nat)
    requires Run(worlds, ops, lastLsn) && n < |worlds|
    ensures Inv(worlds[n]) && Named(worlds[n])
  {
    if n > 0 {
      RunKeeps(worlds, ops, lastLsn, n - 1);
      StepKeeps(worlds[n - 1], ops[n - 1], worlds[n]);
    }
  }

  /**
    In every interleaving, of two commits sharing a written key the later one's
    snapshot is not before the earlier commit.
    */
  lemma FirstCommitterWinsAlways(worlds: seq<World>, ops: seq<Op>, lastLsn: Lsn, n: nat, i: nat, j: nat)
    requires Run(worlds, ops, lastLsn) && n < |worlds| && i < j < |worlds[n].history|
    requires worlds[n].history[i].writes * worlds[n].history[j].writes != {}
    ensures worlds[n].history[i].lsn <= worlds[n].history[j].snapshot
  {
    RunKeeps(worlds, ops, lastLsn, n);
    assert FirstCommitterWins(worlds[n].history[i], worlds[n].history[j]);
  }

  /** The conflict map always holds the greatest commit LSN of each written key, and no other keys. */
  lemma ConflictMapIsGreatest(worlds: seq<World>, ops: seq<Op>, lastLsn: Lsn, n: nat, key: Key)
    requires Run(worlds, ops, lastLsn) && n < |worlds|
    ensures var w := worlds[n];
      && (key in w.m.committed <==> exists i :: 0 <= i < |w.history| && key in w.history[i].writes)
      && (key in w.m.committed ==> forall i :: 0 <= i < |w.history| && key in w.history[i].writes ==>
          w.history[i].lsn <= w.m.committed[key])
      && (key in w.m.committed ==> exists i ::
            0 <= i < |w.history| && key in w.history[i].writes && w.history[i].lsn == w.m.committed[key])
  {
    var w := worlds[n];
    RunKeeps(worlds, ops, lastLsn, n);
    assert Recorded(w.m, w.history, key);
    LastWriterIsGreatest(w.history, w.m.lastLsn, key);
  }

  // ---------------------------------------------------------------- when a commit is rejected

  /** Step `k` of the run is a commit that went through, of a transaction with these writes. */
  ghost predicate CommitsAt(worlds: seq<World>, ops: seq<Op>, k: nat, writes: set<Key>) {
    && k < |ops| && k + 1 < |worlds| && ops[k].CommitTx? && ops[k].tx in worlds[k].txs
    && worlds[k].txs[ops[k].tx].writes == writes
    && |worlds[k + 1].history| == |worlds[k].history| + 1
  }

  /** Where the run stands `n` steps in, seen from a transaction that began at step `b`. */
  ghost predicate Since(worlds: seq<World>, ops: seq<Op>, b: nat, n: nat, tx: nat) {
    && b < n < |worlds|
    && tx in worlds[n].txs && tx < worlds[n].m.nextTx && worlds[n].txs[tx].snapshot == worlds[b].m.lastLsn
    && worlds[b].m.lastLsn <= worlds[n].m.lastLsn && |worlds[b].history| <= |worlds[n].history|
    && (forall i :: 0 <= i < |worlds[b].history| ==> worlds[n].history[i].lsn <= worlds[b].m.lastLsn)
    && forall i :: |worlds[b].history| <= i < |worlds[n].history| ==>
      EnteredSince(worlds, ops, b, n, worlds[n].history[i])
  }

  /** The entry was made by a commit after step `b`, and is numbered above the log's end there. */
  ghost predicate EnteredSince(worlds: seq<World>, ops: seq<Op>, b: nat, n: nat, entry: Committed)
    requires b < |worlds|
  {
    entry.lsn > worlds[b].m.lastLsn && exists k: nat :: b < k < n && CommitsAt(worlds, ops, k, entry.writes)
  }

  lemma SinceStarts(worlds: seq<World>, ops: seq<Op>, b: nat)
    requires b < |ops| && |worlds| == |ops| + 1 && Inv(worlds[b]) && Step(worlds[b], ops[b], worlds[b + 1])
    requires ops[b] == BeginTx(None)
    ensures Since(worlds, ops, b, b + 1, worlds[b].m.nextTx)
  {
  }

  lemma SinceGoesOn(worlds: seq<World>, ops: seq<Op>, b: nat, n: nat, tx: nat)
    requires n < |ops| && |worlds| == |ops| + 1 && Since(worlds, ops, b, n, tx)
      && Step(worlds[n], ops[n], worlds[n + 1])
    ensures Since(worlds, ops, b, n + 1, tx)
  {
    var w, w' := worlds[n], worlds[n + 1];
    forall i | |worlds[b].history| <= i < |w'.history|
      ensures EnteredSince(worlds, ops, b, n + 1, w'.history[i])
    {
      if i < |w.history| {
        assert EnteredSince(worlds, ops, b, n, w.history[i]);
      } else {
        assert CommitsAt(worlds, ops, n, w'.history[i].writes);
      }
    }
  }

  lemma {:induction false} SinceHolds(worlds: seq<World>, ops: seq<Op>, lastLsn: Lsn, b: nat, n: nat)
    requires Run(worlds, ops, lastLsn) && b < n < |worlds| && ops[b] == BeginTx(None)
    ensures Since(worlds, ops, b, n, worlds[b].m.nextTx)
    decreases n
  {
    if n == b + 1 {
      RunKeeps(worlds, ops, lastLsn, b);
      SinceStarts(worlds, ops, b);
    } else {
      SinceHolds(worlds, ops, lastLsn, b, n - 1);
      SinceGoesOn(worlds, ops, b, n - 1, worlds[b].m.nextTx);
    }
  }

  /** A commit made since then has an entry. */
  lemma {:induction false} CommitIsEntered(worlds: seq<World>, ops: seq<Op>, lastLsn: Lsn, k: nat, n: nat,
                                           writes: set<Key>) returns (i: nat)
    requires Run(worlds, ops, lastLsn) && k < n < |worlds| && CommitsAt(worlds, ops, k, writes)
    ensures |worlds[k].history| <= i < |worlds[n].history| && worlds[n].history[i].writes == writes
    decreases n
  {
    if n == k + 1 {
      assert Step(worlds[k], ops[k], worlds[n]);
      i := |worlds[k].history|;
    } else {
      i := CommitIsEntered(worlds, ops, lastLsn, k, n - 1, writes);
      assert Step(worlds[n - 1], ops[n - 1], worlds[n]);
    }
  }

  lemma ClashIsEntry(w: World, t: Tx)
    requires Inv(w)
    ensures Conflicts(w.m, t)
       <==> exists i :: 0 <= i < |w.history| && w.history[i].lsn > t.snapshot && w.history[i].writes * t.writes != {}
  {
    if Conflicts(w.m, t) {
      var key :| key in t.writes && Clashes(w.m, t, key);
      assert Recorded(w.m, w.history, key);
      LastWriterWrote(w.history, key);
      var i :| 0 <= i < |w.history| && key in w.history[i].writes && w.history[i].lsn == w.m.committed[key];
      assert key in w.history[i].writes * t.writes;
    }
    if i :| 0 <= i < |w.history| && w.history[i].lsn > t.snapshot && w.history[i].writes * t.writes != {} {
      if !Conflicts(w.m, t) {
        NoConflictMeansSeen(w, t, i);
      }
    }
  }

  lemma {:induction false} HistoryGrows(worlds: seq<World>, ops: seq<Op>, lastLsn: Lsn, b: nat, n: nat)
    requires Run(worlds, ops, lastLsn) && b <= n < |worlds|
    ensures |worlds[b].history| <= |worlds[n].history|
    decreases n
  {
    if b < n {
      HistoryGrows(worlds, ops, lastLsn, b, n - 1);
      assert Step(worlds[n - 1], ops[n - 1], worlds[n]);
    }
  }

  lemma ConflictIsLaterCommit(worlds: seq<World>, ops: seq<Op>, lastLsn: Lsn, b: nat, c: nat, tx: nat)
    requires Run(worlds, ops, lastLsn) && b < c < |worlds| && ops[b] == BeginTx(None) && tx == worlds[b].m.nextTx
    ensures tx in worlds[c].txs
    ensures Conflicts(worlds[c].m, worlds[c].txs[tx]) <==> OvertakenAt(worlds, ops, b, c, worlds[c].txs[tx].writes)
  {
    RunKeeps(worlds, ops, lastLsn, c);
    SinceHolds(worlds, ops, lastLsn, b, c);
    var w, t := worlds[c], worlds[c].txs[tx];
    ClashIsEntry(w, t);
    if Conflicts(w.m, t) {
      var i :| 0 <= i < |w.history| && w.history[i].lsn > t.snapshot && w.history[i].writes * t.writes != {};
      assert EnteredSince(worlds, ops, b, c, w.history[i]);
    }
    if OvertakenAt(worlds, ops, b, c, t.writes) {
      var k: nat, writes :| b < k < c && CommitsAt(worlds, ops, k, writes) && writes * t.writes != {};
      var i := CommitIsEntered(worlds, ops, lastLsn, k, c, writes);
      HistoryGrows(worlds, ops, lastLsn, b, k);
      assert EnteredSince(worlds, ops, b, c, w.history[i]);
    }
  }

  /** Between the two steps a commit that wrote one of these keys went through. */
  ghost predicate OvertakenAt(worlds: seq<World>, ops: seq<Op>, b: nat, c: nat, keys: set<Key>) {
    exists k: nat, writes :: b < k < c && CommitsAt(worlds, ops, k, writes) && writes * keys != {}
  }

  /**
    A transaction begun without an explicit snapshot is rejected at commit if and only if,
    after it began, a commit that wrote one of its keys went through.
    */
  lemma RejectedIffOvertaken(worlds: seq<World>, ops: seq<Op>, lastLsn: Lsn, b: nat, c: nat, tx: nat)
    requires Run(worlds, ops, lastLsn) && b < c < |ops| && ops[b] == BeginTx(None) && tx == worlds[b].m.nextTx
    requires ops[c] == CommitTx(tx)
    ensures tx in worlds[c].txs
    ensures !CommitsAt(worlds, ops, c, worlds[c].txs[tx].writes) <==>
      exists k: nat, writes :: b < k < c && CommitsAt(worlds, ops, k, writes) && writes * worlds[c].txs[tx].writes != {}
  {
    ConflictIsLaterCommit(worlds, ops, lastLsn, b, c, tx);
    assert Step(worlds[c], ops[c], worlds[c + 1]);
    var writes := worlds[c].txs[tx].writes;
    assert OvertakenAt(worlds, ops, b, c, writes) <==> !CommitsAt(worlds, ops, c, writes);
  }

  // ---------------------------------------------------------------- the objects

  class Transaction {
    const id: nat
    const snapshot: Lsn
    var writes: set<Key>
    var committedLsn: Option<Lsn>

    constructor (id: nat, snapshot: Lsn)
      ensures Value() == Tx(id, snapshot, {}, None)
    {
      this.id, this.snapshot, writes, committedLsn := id, snapshot, {}, None;
    }

    ghost function Value(): Tx
      reads this
    {
      Tx(id, snapshot, writes, committedLsn)
    }

    method RecordWrite(table: string, key: string)
      modifies this`writes
      ensures Value() == old(Value()).(writes := old(writes) + {(table, key)})
    {
      writes := writes + {(table, key)};
    }
  }

  class TransactionManager {
    var lastLsn: Lsn
    var nextTx: nat
    var committed: map<Key, Lsn>

    constructor (lastLsn: Lsn)
      ensures Value() == Manager(lastLsn, 1, map[])
    {
      this.lastLsn, nextTx, committed := lastLsn, 1, map[];
    }

    ghost function Value(): Manager
      reads this
    {
      Manager(lastLsn, nextTx, committed)
    }

    method Start(snapshot: Option<Lsn>) returns (tx: Transaction)
      modifies this
      ensures fresh(tx) && (Value(), tx.Value()) == Begin(old(Value()), snapshot)
      ensures tx.id == old(nextTx) && tx.writes == {} && tx.committedLsn == None
      ensures tx.snapshot == if snapshot.Some? then snapshot.value else old(lastLsn)
      ensures lastLsn == old(lastLsn) + 1 && nextTx == old(nextTx) + 1 && committed == old(committed)
    {
      var id := nextTx;
      nextTx := nextTx + 1;
      var seen := if snapshot.Some? then snapshot.value else lastLsn;
      lastLsn := lastLsn + 1;
      tx := new Transaction(id, seen);
    }

    /** Either every key passes the check and all are stamped, or nothing changes. */
    method Finish(tx: Transaction) returns (r: Result<Lsn>)
      modifies this, tx
      ensures r.Err? <==> old(Conflicts(Value(), tx.Value()))
      ensures r.Err? <==> exists key ::
        key in old(tx.writes) && key in old(committed) && old(committed)[key] > tx.snapshot
      ensures r.Err? ==> r == Err("CDB-8002") && Value() == old(Value()) && tx.Value() == old(tx.Value())
      ensures r.Ok? ==> (Value(), tx.Value()) == Commit(old(Value()), old(tx.Value())) && r.value == lastLsn
      ensures r.Ok? ==> lastLsn == old(lastLsn) + 1 && nextTx == old(nextTx)
      ensures r.Ok? ==> tx.writes == old(tx.writes) && tx.committedLsn == Some(lastLsn)
      ensures r.Ok? ==> forall key ::
        && (key in committed <==> key in tx.writes || key in old(committed))
        && (key in committed ==> committed[key] == if key in tx.writes then lastLsn else old(committed)[key])
    {
      var todo := tx.writes;
      while todo != {}
        invariant todo <= tx.writes && Value() == old(Value()) && tx.Value() == old(tx.Value())
        invariant forall key :: key in tx.writes && key !in todo ==> !Clashes(Value(), tx.Value(), key)
        decreases |todo|
      {
        var key :| key in todo;
        todo := todo - {key};
        if key in committed && committed[key] > tx.snapshot {
          assert Clashes(old(Value()), old(tx.Value()), key);
          return Err("CDB-8002");
        }
      }
      lastLsn := lastLsn + 1;
      tx.committedLsn := Some(lastLsn);
      StampAll(tx.writes);
      r := Ok(lastLsn);
    }

    method StampAll(keys: set<Key>)
      modifies this`committed
      ensures committed == Stamped(old(committed), keys, lastLsn)
    {
      var todo := keys;
      while todo != {}
        invariant todo <= keys && committed == Stamped(old(committed), keys - todo, lastLsn)
        decreases |todo|
      {
        var key :| key in todo;
        todo := todo - {key};
        committed := committed[key := lastLsn];
      }
      assert keys - {} == keys;
    }

    method Abort(tx: Transaction) returns (lsn: Lsn)
      modifies this, tx
      ensures (Value(), tx.Value()) == Rollback(old(Value()), old(tx.Value())) && lsn == lastLsn
      ensures lsn == old(lastLsn) + 1 && tx.writes == {} && committed == old(committed) && nextTx == old(nextTx)
    {
      tx.writes := {};
      lastLsn := lastLsn + 1;
      lsn := lastLsn;
    }
  }
}
