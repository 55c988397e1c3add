/** Inserts and named snapshots over all stores of a database (api.py, storage/snapshot.py). */
module TimeTravel {
  import opened Results
  import opened Stores

  datatype StoreId = StoreId(kind: Kind, name: string)

  datatype Entry = Entry(lsn: Lsn, refcount: int)

  /** The write clock, the stores, the classes of the catalogue and the snapshot registry. */
  datatype Db = Db(lastLsn: Lsn, stores: map<StoreId, Store>, classes: set<string>, snapshots: map<string, Entry>)

  // ---------------------------------------------------------------- operations

  /** `open_*_store(..., create=True)`. */
  function Opened(db: Db, id: StoreId): Store {
    if id in db.stores then db.stores[id] else Empty(id.kind)
  }

  /** Open the store, take the next LSN, append under it; a refused batch still costs the LSN. */
  function AppendTo(db: Db, id: StoreId, batch: Batch): (Db, Result<()>) {
    var store, lsn := Opened(db, id), db.lastLsn + 1;
    match Append(store, batch, lsn)
    case Ok(after) => (db.(lastLsn := lsn, stores := db.stores[id := after]), Ok(()))
    case Err(code) => (db.(lastLsn := lsn, stores := db.stores[id := store]), Err(code))
  }

  function InsertNodes(db: Db, class_: string, batch: Batch): (Db, Result<()>) {
    if batch.rows == [] then (db, Err("CDB-7011"))
    else if class_ !in db.classes then (db, Err("CDB-6021"))
    else AppendTo(db, StoreId(Nodes, class_), batch)
  }

  /** One append per relation, stopping at the first that is refused. */
  function InsertEdges(db: Db, groups: seq<(string, Batch)>): (Db, Result<()>)
    decreases |groups|
  {
    if groups == [] then (db, Ok(()))
    else
      var (next, r) := AppendTo(db, StoreId(Edges, groups[0].0), groups[0].1);
      if r.Err? then (next, r) else InsertEdges(next, groups[1..])
  }

  function InsertEdgeTable(db: Db, groups: seq<(string, Batch)>): (Db, Result<()>) {
    if groups == [] then (db, Err("CDB-7021")) else InsertEdges(db, groups)
  }

  function CreateSnapshot(db: Db, name: string): (Db, Result<Lsn>) {
    if name == "" then (db, Err("CDB-8011"))
    else if name in db.snapshots then (db, Err("CDB-8012"))
    else (db.(snapshots := db.snapshots[name := Entry(db.lastLsn, 1)]), Ok(db.lastLsn))
  }

  function OpenSnapshot(db: Db, name: string): (Db, Result<Lsn>) {
    if name !in db.snapshots then (db, Err("CDB-8013"))
    else
      var e := db.snapshots[name];
      (db.(snapshots := db.snapshots[name := e.(refcount := e.refcount + 1)]), Ok(e.lsn))
  }

  function ReleaseSnapshot(db: Db, name: string): (Db, Result<bool>) {
    if name !in db.snapshots then (db, Err("CDB-8013"))
    else
      var e := db.snapshots[name];
      if e.refcount - 1 <= 0 then (db.(snapshots := db.snapshots - {name}), Ok(true))
      else (db.(snapshots := db.snapshots[name := e.(refcount := e.refcount - 1)]), Ok(false))
  }

  // ---------------------------------------------------------------- reading

  /** What a scan of one store yields; a store that does not exist holds nothing. */
  function Read(db: Db, id: StoreId, snapshot: Option<Lsn>): seq<Public> {
    Scanned(Opened(db, id).chunks, snapshot)
  }

  ghost predicate SoundStore(db: Db, id: StoreId) {
    StampedBy(Opened(db, id).chunks, db.lastLsn) && Numbered(Opened(db, id))
  }

  ghost predicate Sound(db: Db) {
    forall id :: SoundStore(db, id)
  }

  /** Reading below or at the old clock, `b` shows in every store what `a` shows. */
  ghost predicate PastKept(a: Db, b: Db) {
    a.lastLsn <= b.lastLsn && forall id, lsn: Lsn :: lsn <= a.lastLsn ==>
        Read(b, id, Some(lsn)) == Read(a, id, Some(lsn))
  }

  lemma AppendKeepsStore(db: Db, id: StoreId, batch: Batch, x: StoreId)
    requires SoundStore(db, x)
    ensures SoundStore(AppendTo(db, id, batch).0, x)
  {
    var lsn := db.lastLsn + 1;
    StampedLater(Opened(db, x).chunks, db.lastLsn, lsn);
    OpenedAfter(db, id, batch, x);
    StoreAfterKeeps(Opened(db, x), batch, lsn);
  }

  /** A store after an append, refused or not. */
  function StoreAfter(store: Store, batch: Batch, lsn: Lsn): Store {
    match Append(store, batch, lsn)
    case Ok(after) => after
    case Err(_) => store
  }

  lemma OpenedAfter(db: Db, id: StoreId, batch: Batch, x: StoreId)
    ensures Opened(AppendTo(db, id, batch).0, x) == if x == id then StoreAfter(Opened(db, x), batch, db.lastLsn + 1)
      else Opened(db, x)
    ensures AppendTo(db, id, batch).0.lastLsn == db.lastLsn + 1
  {
  }

  lemma StoreAfterKeeps(store: Store, batch: Batch, lsn: Lsn)
    requires StampedBy(store.chunks, lsn) && Numbered(store)
    ensures StampedBy(StoreAfter(store, batch, lsn).chunks, lsn) && Numbered(StoreAfter(store, batch, lsn))
  {
    if Append(store, batch, lsn).Ok? {
      AppendStamps(store, batch, lsn);
      AppendNumbers(store, batch, lsn);
    }
  }

  lemma StoreAfterHidden(store: Store, batch: Batch, later: Lsn, lsn: Lsn)
    requires lsn < later
    ensures Scanned(StoreAfter(store, batch, later).chunks, Some(lsn)) == Scanned(store.chunks, Some(lsn))
  {
    if Append(store, batch, later).Ok? {
      LaterAppendHidden(store, batch, later, lsn);
    }
  }

  lemma AppendHidden(db: Db, id: StoreId, batch: Batch, x: StoreId, lsn: Lsn)
    requires lsn <= db.lastLsn
    ensures Read(AppendTo(db, id, batch).0, x, Some(lsn)) == Read(db, x, Some(lsn))
  {
    OpenedAfter(db, id, batch, x);
    StoreAfterHidden(Opened(db, x), batch, db.lastLsn + 1, lsn);
  }

  lemma AppendKeeps(db: Db, id: StoreId, batch: Batch)
    requires Sound(db)
    ensures Sound(AppendTo(db, id, batch).0) && PastKept(db, AppendTo(db, id, batch).0)
  {
    var after := AppendTo(db, id, batch).0;
    forall x
      ensures SoundStore(after, x)
    {
      assert SoundStore(db, x);
      AppendKeepsStore(db, id, batch, x);
    }
    forall x, lsn: Lsn | lsn <= db.lastLsn
      ensures Read(after, x, Some(lsn)) == Read(db, x, Some(lsn))
    {
      AppendHidden(db, id, batch, x, lsn);
    }
  }

  lemma PastKeptTransitive(a: Db, b: Db, c: Db)
    requires PastKept(a, b) && PastKept(b, c)
    ensures PastKept(a, c)
  {
    forall id, lsn: Lsn | lsn <= a.lastLsn
      ensures Read(c, id, Some(lsn)) == Read(a, id, Some(lsn))
    {
      assert Read(b, id, Some(lsn)) == Read(a, id, Some(lsn));
    }
  }

  lemma {:induction false} InsertEdgesKeeps(db: Db, groups: seq<(string, Batch)>)
    requires Sound(db)
    ensures Sound(InsertEdges(db, groups).0) && PastKept(db, InsertEdges(db, groups).0)
    decreases |groups|
  {
    if groups != [] {
      var id := StoreId(Edges, groups[0].0);
      var (next, r) := AppendTo(db, id, groups[0].1);
      AppendKeeps(db, id, groups[0].1);
      if r.Ok? {
        InsertEdgesKeeps(next, groups[1..]);
        PastKeptTransitive(db, next, InsertEdges(next, groups[1..]).0);
      }
    }
  }

  /** At the clock's own LSN a scan shows the whole store. */
  lemma PresentIsWhole(db: Db, id: StoreId)
    requires Sound(db)
    ensures Read(db, id, Some(db.lastLsn)) == Read(db, id, None)
  {
    assert SoundStore(db, id);
    OldChunksShow(Opened(db, id).chunks, db.lastLsn);
  }

  // ---------------------------------------------------------------- runs

  datatype Op =
    | Insert(class_: string, batch: Batch)
    | InsertTable(groups: seq<(string, Batch)>)
    | Define(class_: string)
    | Create(name: string)
    | OpenName(name: string)
    | Release(name: string)

  function Do(db: Db, op: Op): Db {
    match op
    case Insert(class_, batch) => InsertNodes(db, class_, batch).0
    case InsertTable(groups) => InsertEdgeTable(db, groups).0
    case Define(class_) => db.(classes := db.classes + {class_})
    case Create(name) => CreateSnapshot(db, name).0
    case OpenName(name) => OpenSnapshot(db, name).0
    case Release(name) => ReleaseSnapshot(db, name).0
  }

  lemma DoKeeps(db: Db, op: Op)
    requires Sound(db)
    ensures Sound(Do(db, op)) && PastKept(db, Do(db, op))
  {
    match op
    case Insert(class_, batch) => AppendKeeps(db, StoreId(Nodes, class_), batch);
    case InsertTable(groups) => InsertEdgesKeeps(db, groups);
    case _ => SameStores(db, Do(db, op));
  }

  lemma SameStores(a: Db, b: Db)
    requires Sound(a) && b.stores == a.stores && b.lastLsn == a.lastLsn
    ensures Sound(b) && PastKept(a, b)
  {
    forall id
      ensures SoundStore(b, id)
    {
      assert SoundStore(a, id);
    }
  }

  ghost predicate Run(dbs: seq<Db>, ops: seq<Op>) {
    && |dbs| == |ops| + 1 && dbs[0].stores == map[] && dbs[0].snapshots == map[]
    && forall i :: 0 <= i < |ops| ==> dbs[i + 1] == Do(dbs[i], ops[i])
  }

  lemma {:induction false} RunSound(dbs: seq<Db>, ops: seq<Op>, n: nat)
    requires Run(dbs, ops) && n < |dbs|
    ensures Sound(dbs[n])
  {
    if n > 0 {
      RunSound(dbs, ops, n - 1);
      DoKeeps(dbs[n - 1], ops[n - 1]);
    }
  }

  ghost predicate KeepsAt(dbs: seq<Db>, n: nat) {
    n + 1 < |dbs| && PastKept(dbs[n], dbs[n + 1])
  }

  lemma {:induction false} PastKeptAlong(dbs: seq<Db>, m: nat, n: nat)
    requires m <= n < |dbs| && forall k: nat :: m <= k < n ==> KeepsAt(dbs, k)
    ensures PastKept(dbs[m], dbs[n])
  {
    if m < n {
      PastKeptAlong(dbs, m, n - 1);
      assert KeepsAt(dbs, n - 1);
      PastKeptTransitive(dbs[m], dbs[n - 1], dbs[n]);
    }
  }

  lemma RunPastKept(dbs: seq<Db>, ops: seq<Op>, m: nat, n: nat)
    requires Run(dbs, ops) && m <= n < |dbs|
    ensures PastKept(dbs[m], dbs[n])
  {
    forall k: nat | m <= k < n
      ensures KeepsAt(dbs, k)
    {
      RunStepKeeps(dbs, ops, k);
    }
    PastKeptAlong(dbs, m, n);
  }

  lemma RunStepKeeps(dbs: seq<Db>, ops: seq<Op>, n: nat)
    requires Run(dbs, ops) && n < |ops|
    ensures PastKept(dbs[n], dbs[n + 1])
  {
    RunSound(dbs, ops, n);
    DoKeeps(dbs[n], ops[n]);
  }

  /**
    Time travel: whenever, in any run, a snapshot is created, reading any node or
    edge store at its LSN at any later point yields exactly the rows, in order,
    that the store held at that moment.
    */
  lemma SnapshotReadsThePast(dbs: seq<Db>, ops: seq<Op>, m: nat, n: nat, id: StoreId, lsn: Lsn)
    requires Run(dbs, ops) && m <= n < |dbs| && m < |ops|
    requires ops[m].Create? && CreateSnapshot(dbs[m], ops[m].name).1 == Ok(lsn)
    ensures Read(dbs[n], id, Some(lsn)) == Read(dbs[m], id, None)
  {
    RunSound(dbs, ops, m);
    RunPastKept(dbs, ops, m, n);
    PresentIsWhole(dbs[m], id);
    assert Read(dbs[n], id, Some(lsn)) == Read(dbs[m], id, Some(lsn));
  }

  /** A registered snapshot answers with the LSN it was created under, however often it is opened. */
  lemma {:induction false} EntryKeepsLsn(dbs: seq<Db>, ops: seq<Op>, m: nat, n: nat, name: string)
    requires Run(dbs, ops) && m <= n < |dbs| && name in dbs[m].snapshots
    requires forall i :: m <= i <= n ==> name in dbs[i].snapshots
    ensures dbs[n].snapshots[name].lsn == dbs[m].snapshots[name].lsn
  {
    if m < n {
      EntryKeepsLsn(dbs, ops, m, n - 1, name);
      assert name in dbs[n - 1].snapshots && dbs[n] == Do(dbs[n - 1], ops[n - 1]);
      SnapshotsOnlyRecounted(dbs[n - 1], ops[n - 1], name);
    }
  }

  /**
    So reading at the LSN a registered name stands for, at any point since the name was
    bound, yields exactly the rows, in order, that the store held then.
    */
  lemma NameReadsThePast(dbs: seq<Db>, ops: seq<Op>, m: nat, n: nat, id: StoreId, name: string)
    requires Run(dbs, ops) && m < n < |dbs| && ops[m] == Create(name)
    requires name !in dbs[m].snapshots && forall i :: m < i <= n ==> name in dbs[i].snapshots
    ensures name in dbs[n].snapshots
    ensures Read(dbs[n], id, Some(dbs[n].snapshots[name].lsn)) == Read(dbs[m], id, None)
  {
    assert dbs[m + 1] == Do(dbs[m], ops[m]);
    EntryKeepsLsn(dbs, ops, m + 1, n, name);
    SnapshotReadsThePast(dbs, ops, m, n, id, dbs[m].lastLsn);
  }

  lemma {:induction false} InsertEdgesKeepsSnapshots(db: Db, groups: seq<(string, Batch)>)
    ensures InsertEdges(db, groups).0.snapshots == db.snapshots
    decreases |groups|
  {
    if groups != [] {
      InsertEdgesKeepsSnapshots(AppendTo(db, StoreId(Edges, groups[0].0), groups[0].1).0, groups[1..]);
    }
  }

  lemma SnapshotsOnlyRecounted(db: Db, op: Op, name: string)
    requires name in db.snapshots && name in Do(db, op).snapshots
    ensures Do(db, op).snapshots[name].lsn == db.snapshots[name].lsn
  {
    if op.InsertTable? {
      InsertEdgesKeepsSnapshots(db, op.groups);
    }
  }

  // ---------------------------------------------------------------- which batches are taken

  /** The store of this id before the call: an empty one of its kind if there is none. */
  function StoreOf(stores: map<StoreId, Store>, id: StoreId): (store: Store)
    ensures store == if id in stores then stores[id] else Store(id.kind, [], 0, [])
  {
    if id in stores then stores[id] else Empty(id.kind)
  }

  /** The batch is well shaped and has the columns of what is already stored. */
  ghost predicate Takes(store: Store, batch: Batch) {
    WellShaped(store.kind, batch) && (|store.chunks| > 0 ==> batch.fields == store.fields)
  }

  lemma AppendToIff(db: Db, id: StoreId, batch: Batch)
    ensures AppendTo(db, id, batch).1.Ok? <==> Takes(StoreOf(db.stores, id), batch)
    ensures AppendTo(db, id, batch).1.Ok? ==>
      var after := AppendTo(db, id, batch).0;
      && id in after.stores && AddedTo(StoreOf(db.stores, id), batch, db.lastLsn + 1, after.stores[id])
      && after.lastLsn == db.lastLsn + 1 && forall x :: x != id ==> StoreOf(after.stores, x) == StoreOf(db.stores, x)
  {
    AcceptableIff(Opened(db, id), batch);
    if AppendTo(db, id, batch).1.Ok? {
      AppendIsAdded(Opened(db, id), batch, db.lastLsn + 1);
    }
  }

  /** Group `k` fits its relation's store and the earlier groups of the same relation. */
  ghost predicate GroupFits(stores: map<StoreId, Store>, groups: seq<(string, Batch)>, k: nat)
    requires k < |groups|
  {
    && Takes(StoreOf(stores, StoreId(Edges, groups[k].0)), groups[k].1)
    && forall j :: 0 <= j < k && groups[j].0 == groups[k].0 ==> groups[j].1.fields == groups[k].1.fields
  }

  ghost predicate AllFit(stores: map<StoreId, Store>, groups: seq<(string, Batch)>) {
    forall k: nat :: k < |groups| ==> GroupFits(stores, groups, k)
  }

  /** After the first group went in, a later one fits if it fitted before and has the same columns where it must. */
  lemma FitsAfterFirst(db: Db, groups: seq<(string, Batch)>, k: nat)
    requires groups != [] && k + 1 < |groups|
    requires AppendTo(db, StoreId(Edges, groups[0].0), groups[0].1).1.Ok?
    ensures GroupFits(AppendTo(db, StoreId(Edges, groups[0].0), groups[0].1).0.stores, groups[1..], k)
       <==> GroupFits(db.stores, groups, k + 1)
  {
    var first := StoreId(Edges, groups[0].0);
    AppendToIff(db, first, groups[0].1);
    assert groups[1..][k] == groups[k + 1];
    if GroupFits(AppendTo(db, first, groups[0].1).0.stores, groups[1..], k) {
      forall j | 0 <= j < k + 1 && groups[j].0 == groups[k + 1].0
        ensures groups[j].1.fields == groups[k + 1].1.fields
      {
        assert j > 0 ==> groups[1..][j - 1] == groups[j];
      }
    }
    if GroupFits(db.stores, groups, k + 1) {
      forall j | 0 <= j < k && groups[1..][j].0 == groups[1..][k].0
        ensures groups[1..][j].1.fields == groups[1..][k].1.fields
      {
        assert groups[1..][j] == groups[j + 1];
      }
    }
  }

  lemma AllFitCons(db: Db, groups: seq<(string, Batch)>)
    requires groups != [] && AppendTo(db, StoreId(Edges, groups[0].0), groups[0].1).1.Ok?
    ensures AllFit(AppendTo(db, StoreId(Edges, groups[0].0), groups[0].1).0.stores, groups[1..])
       <==> AllFit(db.stores, groups)
  {
    var first := StoreId(Edges, groups[0].0);
    var next := AppendTo(db, first, groups[0].1).0;
    AppendToIff(db, first, groups[0].1);
    assert GroupFits(db.stores, groups, 0);
    forall k: nat | k + 1 < |groups|
      ensures GroupFits(next.stores, groups[1..], k) <==> GroupFits(db.stores, groups, k + 1)
    {
      FitsAfterFirst(db, groups, k);
    }
    if AllFit(next.stores, groups[1..]) {
      forall k: nat | k < |groups|
        ensures GroupFits(db.stores, groups, k)
      {
        if k > 0 {
          assert GroupFits(next.stores, groups[1..], k - 1);
        }
      }
    }
    if AllFit(db.stores, groups) {
      forall k: nat | k < |groups[1..]|
        ensures GroupFits(next.stores, groups[1..], k)
      {
        assert GroupFits(db.stores, groups, k + 1);
      }
    }
  }

  /** Edge batches are all taken if and only if each fits its store and the earlier groups of its relation. */
  lemma {:induction false} InsertEdgesIff(db: Db, groups: seq<(string, Batch)>)
    ensures InsertEdges(db, groups).1.Ok? <==> AllFit(db.stores, groups)
    decreases |groups|
  {
    if groups != [] {
      var first := StoreId(Edges, groups[0].0);
      var (next, r) := AppendTo(db, first, groups[0].1);
      AppendToIff(db, first, groups[0].1);
      if r.Ok? {
        InsertEdgesIff(next, groups[1..]);
        AllFitCons(db, groups);
      } else {
        assert !GroupFits(db.stores, groups, 0);
      }
    }
  }

  // ---------------------------------------------------------------- the database object

  class Database {
    var lastLsn: Lsn
    var stores: map<StoreId, Store>
    var classes: set<string>
    var snapshots: map<string, Entry>

    constructor ()
      ensures Value() == Db(0, map[], {}, map[])
    {
      lastLsn, stores, classes, snapshots := 0, map[], {}, map[];
    }

    ghost function Value(): Db
      reads this
    {
      Db(lastLsn, stores, classes, snapshots)
    }

    /** `_next_lsn`. */
    method NextLsn() returns (lsn: Lsn)
      modifies this`lastLsn
      ensures lsn == lastLsn == old(lastLsn) + 1
    {
      lastLsn := lastLsn + 1;
      lsn := lastLsn;
    }

    /** Open or create the store, then append under the next LSN. */
    method AppendBatch(id: StoreId, batch: Batch) returns (r: Result<()>)
      modifies this`lastLsn, this`stores
      ensures (Value(), r) == AppendTo(old(Value()), id, batch)
      ensures r.Ok? <==> Takes(StoreOf(old(stores), id), batch)
      ensures r.Ok? ==> id in stores && AddedTo(StoreOf(old(stores), id), batch, lastLsn, stores[id])
      ensures lastLsn == old(lastLsn) + 1 && forall x :: x != id ==> StoreOf(stores, x) == StoreOf(old(stores), x)
    {
      r := AppendUnderNext(id, batch);
      AppendToIff(old(Value()), id, batch);
    }

    method AppendUnderNext(id: StoreId, batch: Batch) returns (r: Result<()>)
      modifies this`lastLsn, this`stores
      ensures (Value(), r) == AppendTo(old(Value()), id, batch)
    {
      var store := if id in stores then stores[id] else Empty(id.kind);
      stores := stores[id := store];
      var lsn := NextLsn();
      var after := Append(store, batch, lsn);
      if after.Err? {
        return Err(after.code);
      }
      stores := stores[id := after.value];
      assert stores == old(stores)[id := after.value];
      r := Ok(());
    }

    method InsertNodeBatch(class_: string, batch: Batch) returns (r: Result<()>)
      modifies this`lastLsn, this`stores
      ensures (Value(), r) == InsertNodes(old(Value()), class_, batch)
      ensures r.Ok? <==> class_ in classes && Takes(StoreOf(old(stores), StoreId(Nodes, class_)), batch)
      ensures r.Ok? ==>
        var id := StoreId(Nodes, class_);
        && lastLsn == old(lastLsn) + 1
        && id in stores && AddedTo(StoreOf(old(stores), id), batch, lastLsn, stores[id])
        && forall x :: x != id ==> StoreOf(stores, x) == StoreOf(old(stores), x)
    {
      if batch.rows == [] {
        return Err("CDB-7011");
      }
      if class_ !in classes {
        return Err("CDB-6021");
      }
      r := AppendBatch(StoreId(Nodes, class_), batch);
    }

    method InsertEdgeGroups(groups: seq<(string, Batch)>) returns (r: Result<()>)
      modifies this`lastLsn, this`stores
      ensures (Value(), r) == InsertEdgeTable(old(Value()), groups)
      ensures r.Ok? <==> groups != [] && AllFit(old(stores), groups)
    {
      InsertEdgesIff(Value(), groups);
      if groups == [] {
        return Err("CDB-7021");
      }
      assert groups[0..] == groups;
      for i := 0 to |groups|
        invariant InsertEdges(old(Value()), groups) == InsertEdges(Value(), groups[i..])
      {
        assert groups[i..][1..] == groups[i + 1..];
        r := AppendBatch(StoreId(Edges, groups[i].0), groups[i].1);
        if r.Err? {
          return;
        }
      }
      r := Ok(());
    }

    method Snapshot(name: string) returns (r: Result<Lsn>)
      modifies this`snapshots
      ensures (Value(), r) == CreateSnapshot(old(Value()), name)
      ensures r.Ok? <==> name != "" && name !in old(snapshots)
      ensures r.Ok? ==> r.value == lastLsn && snapshots == old(snapshots)[name := Entry(lastLsn, 1)]
      ensures r.Err? ==> snapshots == old(snapshots)
    {
      if name == "" {
        return Err("CDB-8011");
      }
      if name in snapshots {
        return Err("CDB-8012");
      }
      snapshots := snapshots[name := Entry(lastLsn, 1)];
      r := Ok(lastLsn);
    }

    method OpenNamed(name: string) returns (r: Result<Lsn>)
      modifies this`snapshots
      ensures (Value(), r) == OpenSnapshot(old(Value()), name)
      ensures r.Ok? <==> name in old(snapshots)
      ensures r.Ok? ==>
        var e := old(snapshots)[name];
        r.value == e.lsn && snapshots == old(snapshots)[name := Entry(e.lsn, e.refcount + 1)]
    {
      if name !in snapshots {
        return Err("CDB-8013");
      }
      snapshots := snapshots[name := snapshots[name].(refcount := snapshots[name].refcount + 1)];
      r := Ok(snapshots[name].lsn);
    }

    method ReleaseNamed(name: string) returns (r: Result<bool>)
      modifies this`snapshots
      ensures (Value(), r) == ReleaseSnapshot(old(Value()), name)
      ensures r.Ok? <==> name in old(snapshots)
      ensures r.Ok? ==>
        var e := old(snapshots)[name];
        && (r.value <==> e.refcount <= 1)
        && snapshots == if r.value then old(snapshots) - {name}
           else old(snapshots)[name := Entry(e.lsn, e.refcount - 1)]
    {
      if name !in snapshots {
        return Err("CDB-8013");
      }
      var left := snapshots[name].refcount - 1;
      if left <= 0 {
        snapshots := snapshots - {name};
        return Ok(true);
      }
      snapshots := snapshots[name := snapshots[name].(refcount := left)];
      r := Ok(false);
    }

    /** `AS_OF SNAPSHOT`: resolve the name, then scan at its LSN. */
    method ReadAsOf(id: StoreId, name: string) returns (r: Result<seq<Public>>)
      ensures r.Err? <==> name !in snapshots
      ensures r.Ok? ==> r.value == Read(Value(), id, Some(snapshots[name].lsn))
    {
      if name !in snapshots {
        return Err("CDB-8013");
      }
      var rows := Scan(if id in stores then stores[id] else Empty(id.kind), Some(snapshots[name].lsn));
      r := Ok(rows);
    }
  }
}
