/** The `Wal` object and the checkpoint procedure (storage/wal.py, storage/checkpoint.py), step by step. */
module WalFiles {
  import opened Results
  import opened WalCodec
  import opened WalLog
  import opened Durability
  import opened Sublists

  // ---------------------------------------------------------------- truncation

  /** The files a truncation spares. */
  function Kept(files: seq<Segment>, lsn: Lsn): seq<Segment> {
    if files == [] then []
    else Kept(files[..|files| - 1], lsn) + if Covered(Tail(files), lsn) then [] else [Tail(files)]
  }

  /** Every covered file goes, except the open one. */
  function Pruned(files: seq<Segment>, open: bool, lsn: Lsn): seq<Segment> {
    if open && files != [] then Kept(files[..|files| - 1], lsn) + [Tail(files)] else Kept(files, lsn)
  }

  /** Each directory is the one before with one covered file, not the last, deleted. */
  ghost predicate Deletions(trace: seq<seq<Segment>>, lsn: Lsn) {
    forall k :: 0 <= k < |trace| - 1 ==> Deletes(trace[k], lsn, trace[k + 1])
  }

  ghost predicate Deletes(before: seq<Segment>, lsn: Lsn, after: seq<Segment>) {
    exists i :: 0 <= i < |before| - 1 && Covered(before[i], lsn) && after == Without(before, i)
  }

  lemma {:induction false} KeptNotCovered(files: seq<Segment>, lsn: Lsn)
    ensures forall i :: 0 <= i < |Kept(files, lsn)| ==> !Covered(Kept(files, lsn)[i], lsn)
    ensures |Kept(files, lsn)| <= |files|
  {
    if files != [] {
      KeptNotCovered(files[..|files| - 1], lsn);
    }
  }

  /** A closed file goes if it holds records and the last is numbered at or below `lsn`; the open one stays. */
  ghost predicate Spared(before: seq<Segment>, open: bool, lsn: Lsn, after: seq<Segment>) {
    exists at: seq<nat> :: Picks(before, at, after) && forall k: nat :: k < |before| ==> (k in at <==>
        || (open && k == |before| - 1)
        || before[k].written == [] || before[k].written[|before[k].written| - 1].lsn > lsn)
  }

  function StaysAt(lsn: Lsn): Segment -> bool {
    (seg: Segment) => seg.written == [] || seg.written[|seg.written| - 1].lsn > lsn
  }

  lemma {:induction false} KeptPicks(files: seq<Segment>, lsn: Lsn)
    ensures PicksJust(files, StaysAt(lsn), Kept(files, lsn))
  {
    if files == [] {
      PicksNothing(StaysAt(lsn));
    } else {
      KeptPicks(files[..|files| - 1], lsn);
      PicksJustTo(files[..|files| - 1], StaysAt(lsn), Kept(files[..|files| - 1], lsn), files, Kept(files, lsn));
    }
  }

  lemma PrunedIsSpared(files: seq<Segment>, open: bool, lsn: Lsn)
    ensures Spared(files, open, lsn, Pruned(files, open, lsn))
  {
    if open && files != [] {
      var n := |files| - 1;
      KeptPicks(files[..n], lsn);
      var at: seq<nat> :| Picks(files[..n], at, Kept(files[..n], lsn))
        && forall k: nat :: k < n ==> (k in at <==> StaysAt(lsn)(files[..n][k]));
      LastIsSpared(files, lsn, at, Kept(files[..n], lsn));
    } else {
      KeptPicks(files, lsn);
      var at: seq<nat> :| Picks(files, at, Kept(files, lsn))
        && forall k: nat :: k < |files| ==> (k in at <==> StaysAt(lsn)(files[k]));
      NoneIsOpen(files, open, lsn, at, Kept(files, lsn));
    }
  }

  lemma NoneIsOpen(files: seq<Segment>, open: bool, lsn: Lsn, at: seq<nat>, kept: seq<Segment>)
    requires Picks(files, at, kept) && (open ==> files == [])
    requires forall k: nat :: k < |files| ==> (k in at <==> StaysAt(lsn)(files[k]))
    ensures Spared(files, open, lsn, kept)
  {
  }

  lemma LastIsSpared(files: seq<Segment>, lsn: Lsn, at: seq<nat>, kept: seq<Segment>)
    requires files != [] && Picks(files[..|files| - 1], at, kept)
    requires forall k: nat :: k < |files| - 1 ==> (k in at <==> StaysAt(lsn)(files[..|files| - 1][k]))
    ensures Spared(files, true, lsn, kept + [files[|files| - 1]])
  {
    var n := |files| - 1;
    PicksNext(files[..n], at, kept, files[n]);
    EndsWith(files, files[..n]);
    var all := at + [n];
    forall k: nat | k < |files|
      ensures k in all <==>
        k == n || files[k].written == [] || files[k].written[|files[k].written| - 1].lsn > lsn
    {
      assert k < n ==> files[..n][k] == files[k];
    }
    assert Picks(files, all, kept + [files[n]]);
  }

  /** After a truncation nothing closed is left to prune. */
  lemma PrunedIsDone(files: seq<Segment>, lsn: Lsn)
    requires files != []
    ensures Pruned(files, true, lsn) != [] && !MoreToPrune(Pruned(files, true, lsn), lsn)
  {
    KeptNotCovered(files[..|files| - 1], lsn);
  }

  /** Deleting the file at the scan position. */
  lemma DeleteAtPosition(kept: seq<Segment>, rest: seq<Segment>)
    requires rest != []
    ensures Without(kept + rest, |kept|) == kept + rest[1..]
  {
  }

  // ---------------------------------------------------------------- the log object

  class Wal {
    const cfg: Config
    var files: seq<Segment>
    var open: bool
    var lastLsn: Lsn

    ghost predicate Valid()
      reads this
    {
      open ==> files != []
    }

    /** Open a directory: nothing is open yet, and the last LSN is the largest found in any segment. */
    constructor (cfg: Config, files: seq<Segment>)
      ensures Valid() && this.cfg == cfg && this.files == files && !open && lastLsn == MaxLsn(files)
    {
      this.cfg, this.files, open, lastLsn := cfg, files, false, 0;
      new;
      for i := 0 to |files|
        invariant this.cfg == cfg && this.files == files && !open && lastLsn == MaxLsn(files[..i])
      {
        assert files[..i + 1][..i] == files[..i];
        var segment := LargestIn(files[i].written);
        lastLsn := Larger(lastLsn, segment);
      }
      assert files[..|files|] == files;
    }

    method CreateNewSegment()
      modifies this`files, this`open
      ensures open && files == Created(old(files))
    {
      files := Created(files);
      open := true;
    }

    method ResumeOrCreate()
      requires !open
      modifies this`files, this`open
      ensures open && files == Resumed(cfg, old(files)) && files != []
    {
      if files != [] && Size(cfg.env, Tail(files)) < cfg.rollSize {
        open := true;
        return;
      }
      CreateNewSegment();
    }

    method EnsureSegment(extra: nat)
      requires Valid()
      modifies this`files, this`open
      ensures Valid() && open && files == Ensured(cfg, old(files), old(open), extra) && files != []
      ensures MadeReady(cfg, old(files), old(open), extra, files)
    {
      EnsuredIsReady(cfg, files, open, extra);
      if !open {
        ResumeOrCreate();
      }
      if Size(cfg.env, Tail(files)) + extra > cfg.rollSize {
        open := false;
        CreateNewSegment();
      }
    }

    ghost function Session(phase: Phase): Session
      reads this
    {
      Durability.Session(open, lastLsn, phase)
    }

    /** Write the next record, rolling over first if it does not fit; refuse it untouched if it cannot be encoded. */
    method Append(kind: string, payload: Bytes) returns (r: Result<Lsn>)
      requires Valid()
      modifies this
      ensures Valid()
      ensures r.Ok? <==> InRange(cfg.env, NextRecord(old(Session(Idle)), kind, payload))
      ensures r.Err? ==> files == old(files) && open == old(open) && lastLsn == old(lastLsn)
      ensures r.Ok? ==> r.value == lastLsn == old(lastLsn) + 1 && open
      ensures r.Ok? ==> files == Appended(cfg, old(files), old(open), NextRecord(old(Session(Idle)), kind, payload))
      ensures r.Ok? ==>
        RecordAdded(cfg, old(files), old(open), WalRecord(old(lastLsn) + 1, old(lastLsn), kind, payload), files)
    {
      var record := WalRecord(lastLsn + 1, lastLsn, kind, payload);
      assert record == NextRecord(Session(Idle), kind, payload);
      var size := EncodedSize(cfg.env, record);
      if size.Err? {
        return Err(size.code);
      }
      AppendedIsAdded(cfg, files, open, record);
      Write(record, size.value);
      lastLsn := lastLsn + 1;
      r := Ok(lastLsn);
    }

    method Write(record: WalRecord, size: nat)
      requires Valid() && size == |Encoded(cfg.env, record)|
      modifies this`files, this`open
      ensures open && files == Appended(cfg, old(files), old(open), record)
    {
      EnsureSegment(size);
      files := WriteTail(files, record);
      if cfg.sync == On {
        FlushSegment();
      }
    }

    method FlushSegment()
      requires files != []
      modifies this`files
      ensures files == SyncTail(old(files))
    {
      files := SyncTail(files);
    }

    method Flush()
      requires Valid()
      modifies this`files
      ensures Valid()
      ensures files == if open && cfg.sync != Off then SyncTail(old(files)) else old(files)
      ensures if open && cfg.sync != Off then LastSynced(old(files), files) else files == old(files)
    {
      if !open || cfg.sync == Off {
        return;
      }
      FlushSegment();
    }

    /** One file of the scan: deleted if covered, passed over if not. */
    method Visit(ghost all: seq<Segment>, ghost k: nat, lsn: Lsn, i: nat, removed: nat, ghost trace: seq<seq<Segment>>)
      returns (i': nat, removed': nat, ghost trace': seq<seq<Segment>>)
      requires k < |all| && (open ==> k < |all| - 1)
      requires Scanned(all, k, lsn, files, i, removed) && Traced(trace, all, files, removed, open, lsn)
      modifies this`files
      ensures Scanned(all, k + 1, lsn, files, i', removed') && Traced(trace', all, files, removed', open, lsn)
    {
      i', removed', trace' := i, removed, trace;
      ScanStep(all, k, lsn, files, i, removed);
      if Covered(files[i], lsn) {
        TraceStep(trace, all, files, removed, open, lsn, i);
        files := Without(files, i);
        removed', trace' := removed + 1, trace + [files];
      } else {
        i' := i + 1;
      }
    }

    /** `truncate_before`: one deletion at a time over the sorted files. */
    method TruncateBefore(lsn: Lsn) returns (removed: nat, ghost trace: seq<seq<Segment>>)
      requires Valid()
      modifies this`files
      ensures Valid() && files == Pruned(old(files), open, lsn) && removed == |old(files)| - |files|
      ensures |trace| == removed + 1 && trace[0] == old(files) && trace[removed] == files
      ensures open ==> Deletions(trace, lsn)
      ensures Spared(old(files), open, lsn, files)
    {
      removed, trace := DeleteCovered(lsn);
      PrunedIsSpared(old(files), open, lsn);
    }

    method DeleteCovered(lsn: Lsn) returns (removed: nat, ghost trace: seq<seq<Segment>>)
      requires Valid()
      modifies this`files
      ensures Valid() && files == Pruned(old(files), open, lsn) && removed == |old(files)| - |files|
      ensures |trace| == removed + 1 && trace[0] == old(files) && trace[removed] == files
      ensures open ==> Deletions(trace, lsn)
    {
      var all := files;
      var closed := if open then |all| - 1 else |all|;
      var i := 0;
      removed, trace := 0, [files];
      for k := 0 to closed
        invariant Scanned(all, k, lsn, files, i, removed)
        invariant Traced(trace, all, files, removed, open, lsn)
      {
        i, removed, trace := Visit(all, k, lsn, i, removed, trace);
      }
      ScanDone(all, lsn, files, i, removed, open);
    }
  }

  method EncodedSize(env: Env, record: WalRecord) returns (size: Result<nat>)
    ensures size.Ok? <==> InRange(env, record)
    ensures size.Ok? ==> size.value == |Encoded(env, record)|
  {
    var encoded := Encode(env, record);
    size := if encoded.Err? then Err(encoded.code) else Ok(|encoded.value|);
  }

  /** The directory has gone from `start` to `files` by `removed` deletions. */
  ghost predicate Traced(trace: seq<seq<Segment>>, start: seq<Segment>, files: seq<Segment>, removed: nat, open: bool,
                         lsn: Lsn) {
    && |trace| == removed + 1 && trace[0] == start && trace[removed] == files
    && (open ==> Deletions(trace, lsn))
  }

  lemma TraceStep(trace: seq<seq<Segment>>, start: seq<Segment>, files: seq<Segment>, removed: nat, open: bool,
                  lsn: Lsn, i: nat)
    requires Traced(trace, start, files, removed, open, lsn) && i < |files| && Covered(files[i], lsn)
      && (open ==> i < |files| - 1)
    ensures Traced(trace + [Without(files, i)], start, Without(files, i), removed + 1, open, lsn)
  {
    var longer := trace + [Without(files, i)];
    if open {
      forall k | 0 <= k < |longer| - 1
        ensures Deletes(longer[k], lsn, longer[k + 1])
      {
        assert k < removed ==> Deletes(trace[k], lsn, trace[k + 1]);
      }
    }
  }

  lemma ScanStep(all: seq<Segment>, k: nat, lsn: Lsn, files: seq<Segment>, i: nat, removed: nat)
    requires Scanned(all, k, lsn, files, i, removed) && k < |all|
    ensures i < |files| && files[i] == all[k] && (k < |all| - 1 ==> i < |files| - 1)
    ensures Covered(all[k], lsn) ==> Scanned(all, k + 1, lsn, Without(files, i), i, removed + 1)
    ensures !Covered(all[k], lsn) ==> Scanned(all, k + 1, lsn, files, i + 1, removed)
  {
    assert all[..k + 1][..k] == all[..k];
    assert all[k..] == [all[k]] + all[k + 1..];
    DeleteAtPosition(Kept(all[..k], lsn), all[k..]);
  }

  lemma ScanDone(all: seq<Segment>, lsn: Lsn, files: seq<Segment>, i: nat, removed: nat, open: bool)
    requires (open ==> all != []) && Scanned(all, if open then |all| - 1 else |all|, lsn, files, i, removed)
    ensures files == Pruned(all, open, lsn) && removed == |all| - |files|
  {
    assert all[..|all|] == all;
  }

  /** The first `k` files have been visited. */
  ghost predicate Scanned(all: seq<Segment>, k: nat, lsn: Lsn, files: seq<Segment>, i: nat, removed: nat) {
    && k <= |all| && files == Kept(all[..k], lsn) + all[k..]
    && i == |Kept(all[..k], lsn)| && removed + i == k
  }

  const MIN_ROLL: nat := HEADER_SIZE + 64

  /** A roll size that leaves no room for a record is refused before anything is read. */
  method OpenWal(cfg: Config, files: seq<Segment>) returns (r: Result<Wal>)
    ensures r.Err? <==> cfg.rollSize <= MIN_ROLL
    ensures r.Err? ==> r == Err("CDB-7050")
    ensures r.Ok? ==> fresh(r.value) && r.value.Valid() && r.value.cfg == cfg && r.value.files == files
    ensures r.Ok? ==> !r.value.open && r.value.lastLsn == MaxLsn(files)
  {
    if cfg.rollSize <= MIN_ROLL {
      return Err("CDB-7050");
    }
    var wal := new Wal(cfg, files);
    r := Ok(wal);
  }

  // ---------------------------------------------------------------- checkpoint

  class Bundle {
    var manifest: Manifest

    constructor (manifest: Manifest)
      ensures this.manifest == manifest
    {
      this.manifest := manifest;
    }
  }

  datatype CheckpointResult = CheckpointResult(checkpointLsn: Lsn, segmentsRemoved: nat)

  /** Each world follows from the one before by a step of the protocol. */
  ghost predicate Steps(cfg: Config, worlds: seq<World>) {
    forall k :: 0 <= k < |worlds| - 1 ==> Moves(cfg, worlds[k], worlds[k + 1])
  }

  ghost predicate Moves(cfg: Config, a: World, b: World) {
    exists action :: Takes(cfg, a, action, b)
  }

  lemma {:induction false} StepsInv(cfg: Config, worlds: seq<World>, n: nat)
    requires cfg.sync != Off && Steps(cfg, worlds) && n < |worlds| && Inv(worlds[0])
    ensures Inv(worlds[n])
  {
    if n > 0 {
      StepsInv(cfg, worlds, n - 1);
      assert Moves(cfg, worlds[n - 1], worlds[n]);
      var action :| Takes(cfg, worlds[n - 1], action, worlds[n]);
      StepKeeps(cfg, worlds[n - 1], action, worlds[n]);
    }
  }

  lemma StepsJoin(cfg: Config, first: seq<World>, second: seq<World>)
    requires first != [] && second != [] && Steps(cfg, first) && Steps(cfg, second)
    requires Moves(cfg, first[|first| - 1], second[0])
    ensures Steps(cfg, first + second)
  {
    var both := first + second;
    forall k | 0 <= k < |both| - 1
      ensures Moves(cfg, both[k], both[k + 1])
    {
      if k >= |first| {
        assert Moves(cfg, second[k - |first|], second[k - |first| + 1]);
      }
    }
  }

  /** The worlds a truncation passes through. */
  ghost function PruningWorlds(w: World, trace: seq<seq<Segment>>): (worlds: seq<World>)
    ensures |worlds| == |trace| && forall k :: 0 <= k < |trace| ==> worlds[k] == w.(files := trace[k])
  {
    seq(|trace|, k requires 0 <= k < |trace| => w.(files := trace[k]))
  }

  lemma PruningSteps(cfg: Config, w: World, trace: seq<seq<Segment>>, lsn: Lsn)
    requires w.session.Some? && w.session.value.phase == Pruning(lsn) && Deletions(trace, lsn)
    ensures Steps(cfg, PruningWorlds(w, trace))
  {
    var worlds := PruningWorlds(w, trace);
    forall k | 0 <= k < |worlds| - 1
      ensures Moves(cfg, worlds[k], worlds[k + 1])
    {
      assert Deletes(trace[k], lsn, trace[k + 1]);
      var i :| 0 <= i < |trace[k]| - 1 && Covered(trace[k][i], lsn) && trace[k + 1] == Without(trace[k], i);
      assert Takes(cfg, worlds[k], DeleteSegment(i), worlds[k + 1]);
    }
  }

  /** The marker written, flushed and published in the manifest, one after the other. */
  ghost predicate Published(cfg: Config, w0: World, w1: World, w2: World, w3: World) {
    Takes(cfg, w0, BeginCheckpoint, w1) && Takes(cfg, w1, FlushMarker, w2) && Takes(cfg, w2, WriteManifest, w3)
  }

  ghost function Here(bundle: Bundle, wal: Wal, phase: Phase, flushed: set<WalRecord>): World
    reads bundle, wal
  {
    World(wal.files, bundle.manifest, Some(wal.Session(phase)), flushed)
  }

  /** A checkpoint is refused if the log is behind the manifest, or if its marker cannot be encoded. */
  ghost predicate Refuses(bundle: Bundle, wal: Wal)
    reads bundle, wal
  {
    || wal.lastLsn < bundle.manifest.checkpointLsn
    || !InRange(wal.cfg.env, NextRecord(wal.Session(Idle), CHECKPOINT_KIND, []))
  }

  /** Refuse a log behind its manifest, else marker, flush and manifest. */
  method Publish(bundle: Bundle, wal: Wal) returns (r: Result<Lsn>)
    requires wal.Valid()
    modifies bundle, wal
    ensures wal.Valid() && (r.Err? <==> old(Refuses(bundle, wal)))
    ensures r.Err? ==>
      wal.files == old(wal.files) && wal.lastLsn == old(wal.lastLsn) && bundle.manifest == old(bundle.manifest)
    ensures r.Ok? ==>
      wal.open && r.value == wal.lastLsn == old(wal.lastLsn) + 1 && bundle.manifest == Manifest(r.value, r.value)
    ensures r.Ok? ==> wal.files == MarkedFiles(wal.cfg, old(wal.files), old(wal.Session(Idle)))
  {
    if wal.lastLsn < bundle.manifest.checkpointLsn {
      return Err("CDB-7060");
    }
    r := MarkAndFlush(wal);
    if r.Ok? {
      bundle.manifest := Manifest(r.value, r.value);
    }
  }

  /** The directory with the marker of a checkpoint appended and flushed. */
  function MarkedFiles(cfg: Config, files: seq<Segment>, s: Session): seq<Segment> {
    Flushable(cfg, Appended(cfg, files, s.open, NextRecord(s, CHECKPOINT_KIND, [])))
  }

  lemma PublishedWorlds(cfg: Config, w0: World, s: Session, files: seq<Segment>)
    returns (w1: World, w2: World, w3: World)
    requires w0.session == Some(s) && s.phase == Idle && s.lastLsn >= w0.manifest.checkpointLsn
    requires InRange(cfg.env, NextRecord(s, CHECKPOINT_KIND, []))
    requires files == MarkedFiles(cfg, w0.files, s)
    ensures Published(cfg, w0, w1, w2, w3)
    ensures var m := s.lastLsn + 1; w3 == World(files, Manifest(m, m), Some(Session(true, m, Pruning(m))), w3.flushed)
  {
    w1, w2, w3 := PublishSteps(cfg, w0, s);
  }

  /** Append the marker and flush it. */
  method MarkAndFlush(wal: Wal) returns (r: Result<Lsn>)
    requires wal.Valid()
    modifies wal
    ensures wal.Valid() && (r.Ok? <==> InRange(wal.cfg.env, NextRecord(old(wal.Session(Idle)), CHECKPOINT_KIND, [])))
    ensures r.Err? ==> wal.files == old(wal.files) && wal.lastLsn == old(wal.lastLsn)
    ensures r.Ok? ==> wal.open && r.value == wal.lastLsn == old(wal.lastLsn) + 1
    ensures r.Ok? ==> wal.files == Flushable(wal.cfg,
      Appended(wal.cfg, old(wal.files), old(wal.open), NextRecord(old(wal.Session(Idle)), CHECKPOINT_KIND, [])))
  {
    r := wal.Append(CHECKPOINT_KIND, []);
    if r.Ok? {
      wal.Flush();
    }
  }

  /** What a flush of an open log leaves. */
  function Flushable(cfg: Config, files: seq<Segment>): seq<Segment> {
    if cfg.sync != Off && files != [] then SyncTail(files) else files
  }

  lemma PublishSteps(cfg: Config, w0: World, s: Session) returns (w1: World, w2: World, w3: World)
    requires w0.session == Some(s) && s.phase == Idle && s.lastLsn >= w0.manifest.checkpointLsn
    requires InRange(cfg.env, NextRecord(s, CHECKPOINT_KIND, []))
    ensures Published(cfg, w0, w1, w2, w3)
    ensures var m, files := s.lastLsn + 1, Appended(cfg, w0.files, s.open, NextRecord(s, CHECKPOINT_KIND, []));
      w3 == World(Flushable(cfg, files), Manifest(m, m), Some(Session(true, m, Pruning(m))), w3.flushed)
  {
    w1 := MarkStep(cfg, w0, s);
    w2 := FlushStep(cfg, w1, s.lastLsn + 1);
    w3 := ManifestStep(cfg, w2, s.lastLsn + 1);
  }

  lemma ManifestStep(cfg: Config, w2: World, m: Lsn) returns (w3: World)
    requires w2.session == Some(Session(true, m, Flushed(m)))
    ensures Takes(cfg, w2, WriteManifest, w3)
    ensures w3 == World(w2.files, Manifest(m, m), Some(Session(true, m, Pruning(m))), w3.flushed)
  {
    w3 := w2.(manifest := Manifest(m, m), session := Some(w2.session.value.(phase := Pruning(m))));
  }

  lemma MarkStep(cfg: Config, w0: World, s: Session) returns (w1: World)
    requires w0.session == Some(s) && s.phase == Idle && s.lastLsn >= w0.manifest.checkpointLsn
    requires InRange(cfg.env, NextRecord(s, CHECKPOINT_KIND, []))
    ensures Takes(cfg, w0, BeginCheckpoint, w1)
    ensures w1.files == Appended(cfg, w0.files, s.open, NextRecord(s, CHECKPOINT_KIND, [])) && w1.files != []
    ensures w1.session == Some(Session(true, s.lastLsn + 1, Marked(s.lastLsn + 1)))
  {
    w1 := AppendTo(cfg, w0, s, CHECKPOINT_KIND, [], Marked(s.lastLsn + 1));
  }

  lemma FlushStep(cfg: Config, w1: World, m: Lsn) returns (w2: World)
    requires w1.session == Some(Session(true, m, Marked(m))) && w1.files != []
    ensures Takes(cfg, w1, FlushMarker, w2)
    ensures w2.files == Flushable(cfg, w1.files)
    ensures w2.session == Some(Session(true, m, Flushed(m)))
  {
    w2 := FlushTo(cfg, w1, w1.session.value, Flushed(m));
  }

  /**
    `checkpoint`: marker, flush, manifest, truncation. `worlds` lists every point
    at which it can be interrupted; each is a state of the protocol.
    */
  method Checkpoint(bundle: Bundle, wal: Wal, ghost flushed: set<WalRecord>)
    returns (r: Result<CheckpointResult>, ghost worlds: seq<World>)
    requires wal.Valid()
    modifies bundle, wal
    ensures wal.Valid() && (r.Err? <==> old(Refuses(bundle, wal)))
    ensures r.Err? ==>
      wal.files == old(wal.files) && wal.lastLsn == old(wal.lastLsn) && bundle.manifest == old(bundle.manifest)
    ensures r.Ok? ==> r.value.checkpointLsn == wal.lastLsn == old(wal.lastLsn) + 1
    ensures r.Ok? ==> bundle.manifest == Manifest(wal.lastLsn, wal.lastLsn)
    ensures r.Ok? ==> Steps(wal.cfg, worlds) && |worlds| == 5 + r.value.segmentsRemoved
    ensures r.Ok? ==> worlds[0] == old(Here(bundle, wal, Idle, flushed))
    ensures r.Ok? ==> worlds[|worlds| - 1] == Here(bundle, wal, Idle, worlds[|worlds| - 1].flushed)
    ensures r.Ok? && wal.cfg.sync != Off && Inv(worlds[0]) ==> forall k :: 0 <= k < |worlds| ==> Inv(worlds[k])
  {
    worlds := [];
    ghost var s, w0 := wal.Session(Idle), Here(bundle, wal, Idle, flushed);
    ghost var trace;
    r, trace := PublishAndPrune(bundle, wal);
    if r.Ok? {
      worlds := AllWorlds(wal.cfg, w0, s, trace);
    }
  }

  /** What a checkpoint does to the directory and the manifest. */
  method PublishAndPrune(bundle: Bundle, wal: Wal) returns (r: Result<CheckpointResult>, ghost trace: seq<seq<Segment>>)
    requires wal.Valid()
    modifies bundle, wal
    ensures wal.Valid() && (r.Err? <==> old(Refuses(bundle, wal)))
    ensures r.Err? ==>
      wal.files == old(wal.files) && wal.lastLsn == old(wal.lastLsn) && bundle.manifest == old(bundle.manifest)
    ensures r.Ok? ==> wal.open && r.value.checkpointLsn == wal.lastLsn == old(wal.lastLsn) + 1
    ensures r.Ok? ==> bundle.manifest == Manifest(wal.lastLsn, wal.lastLsn)
    ensures r.Ok? ==> |trace| == r.value.segmentsRemoved + 1 && trace[r.value.segmentsRemoved] == wal.files
    ensures r.Ok? ==> trace[0] == MarkedFiles(wal.cfg, old(wal.files), old(wal.Session(Idle)))
    ensures r.Ok? ==> Deletions(trace, wal.lastLsn) && !MoreToPrune(wal.files, wal.lastLsn)
  {
    trace := [];
    var marker := Publish(bundle, wal);
    if marker.Err? {
      return Err(marker.code), trace;
    }
    var removed;
    removed, trace := Prune(wal, marker.value);
    r := Ok(CheckpointResult(marker.value, removed));
  }

  /** Truncation leaves nothing more to truncate. */
  method Prune(wal: Wal, lsn: Lsn) returns (removed: nat, ghost trace: seq<seq<Segment>>)
    requires wal.Valid() && wal.open
    modifies wal`files
    ensures wal.Valid() && |trace| == removed + 1 && trace[0] == old(wal.files) && trace[removed] == wal.files
    ensures Deletions(trace, lsn) && !MoreToPrune(wal.files, lsn)
  {
    PrunedIsDone(wal.files, lsn);
    removed, trace := wal.TruncateBefore(lsn);
  }

  /** All the interruption points, from the session it starts in and the directories truncation goes through. */
  lemma AllWorlds(cfg: Config, w0: World, s: Session, trace: seq<seq<Segment>>) returns (worlds: seq<World>)
    requires w0.session == Some(s) && s.phase == Idle && s.lastLsn >= w0.manifest.checkpointLsn
    requires InRange(cfg.env, NextRecord(s, CHECKPOINT_KIND, []))
    requires trace != [] && trace[0] == MarkedFiles(cfg, w0.files, s)
    requires Deletions(trace, s.lastLsn + 1) && !MoreToPrune(trace[|trace| - 1], s.lastLsn + 1)
    ensures Steps(cfg, worlds) && |worlds| == |trace| + 4 && worlds[0] == w0
    ensures var m, last := s.lastLsn + 1, worlds[|worlds| - 1];
      last == World(trace[|trace| - 1], Manifest(m, m), Some(Session(true, m, Idle)), last.flushed)
    ensures cfg.sync != Off && Inv(w0) ==> forall k :: 0 <= k < |worlds| ==> Inv(worlds[k])
  {
    var w1, w2, w3 := PublishedWorlds(cfg, w0, s, trace[0]);
    worlds := CheckpointWorlds(cfg, w0, w1, w2, w3, trace, s.lastLsn + 1);
  }

  /** All the interruption points in order. */
  lemma CheckpointWorlds(cfg: Config, w0: World, w1: World, w2: World, w3: World, trace: seq<seq<Segment>>, m: Lsn)
    returns (worlds: seq<World>)
    requires Published(cfg, w0, w1, w2, w3)
    requires w3.session.Some? && w3.session.value.phase == Pruning(m) && trace != [] && trace[0] == w3.files
    requires Deletions(trace, m) && !MoreToPrune(trace[|trace| - 1], m)
    ensures Steps(cfg, worlds) && |worlds| == |trace| + 4 && worlds[0] == w0
    ensures worlds[|worlds| - 1] == w3.(files := trace[|trace| - 1], session := Some(w3.session.value.(phase := Idle)))
    ensures cfg.sync != Off && Inv(w0) ==> forall k :: 0 <= k < |worlds| ==> Inv(worlds[k])
  {
    var pruning := PruningWorlds(w3, trace);
    PruningSteps(cfg, w3, trace, m);
    var last := pruning[|pruning| - 1];
    var done := last.(session := Some(last.session.value.(phase := Idle)));
    assert Takes(cfg, last, EndCheckpoint, done);
    FirstSteps(cfg, w0, w1, w2, w3);
    StepsJoin(cfg, [w0, w1, w2], pruning);
    StepsJoin(cfg, [w0, w1, w2] + pruning, [done]);
    worlds := [w0, w1, w2] + pruning + [done];
    if cfg.sync != Off && Inv(w0) {
      AllStepsInv(cfg, worlds);
    }
  }

  lemma FirstSteps(cfg: Config, w0: World, w1: World, w2: World, w3: World)
    requires Published(cfg, w0, w1, w2, w3)
    ensures Steps(cfg, [w0, w1, w2]) && Moves(cfg, w2, w3)
  {
    assert Moves(cfg, w0, w1) && Moves(cfg, w1, w2);
  }

  lemma AllStepsInv(cfg: Config, worlds: seq<World>)
    requires cfg.sync != Off && worlds != [] && Steps(cfg, worlds) && Inv(worlds[0])
    ensures forall k :: 0 <= k < |worlds| ==> Inv(worlds[k])
  {
    forall k | 0 <= k < |worlds|
      ensures Inv(worlds[k])
    {
      StepsInv(cfg, worlds, k);
    }
  }

  method LargestIn(records: seq<WalRecord>) returns (m: Lsn)
    ensures m == MaxIn(records)
  {
    m := 0;
    for i := 0 to |records|
      invariant m == MaxIn(records[..i])
    {
      assert records[..i + 1][..i] == records[..i];
      m := Larger(m, records[i].lsn);
    }
    assert records[..|records|] == records;
  }
}
