/** The durability protocol as a state machine (storage/wal.py, storage/checkpoint.py). */
module Durability {
  import opened Results
  import opened WalCodec
  import opened WalLog

  // Appends, flushes, the phases of a checkpoint, recovery, and crashes between any two of them.

  const CHECKPOINT_KIND: string := "CHECKPOINT"

  datatype Manifest = Manifest(lastLsn: Lsn, checkpointLsn: Lsn)

  /** How far a running checkpoint has got. */
  datatype Phase = Idle | Marked(lsn: Lsn) | Flushed(lsn: Lsn) | Pruning(lsn: Lsn)

  /** An open `Wal` object. */
  datatype Session = Session(open: bool, lastLsn: Lsn, phase: Phase)

  /** Disk and process, with the history of every record an fsync has covered. */
  datatype World = World(files: seq<Segment>, manifest: Manifest, session: Option<Session>, flushed: set<WalRecord>)

  datatype Action =
    | Open
    | Append(kind: string, payload: Bytes)
    | Flush
    | Close
    | BeginCheckpoint
    | FlushMarker
    | WriteManifest
    | DeleteSegment(i: nat)
    | EndCheckpoint
    | Recover
    | Crash

  function FreshWorld(): World {
    World([], Manifest(0, 0), None, {})
  }

  // ---------------------------------------------------------------- steps

  /** The largest LSN found by reading every segment, 0 for an empty log. */
  function MaxLsn(files: seq<Segment>): Lsn {
    if files == [] then 0 else Larger(MaxLsn(files[..|files| - 1]), MaxIn(Tail(files).written))
  }

  function MaxIn(records: seq<WalRecord>): Lsn {
    if records == [] then 0 else Larger(MaxIn(records[..|records| - 1]), records[|records| - 1].lsn)
  }

  function Larger(a: nat, b: nat): nat {
    if a >= b then a else b
  }

  function RecordsOf(seg: Segment): set<WalRecord> {
    set r | r in seg.written
  }

  function NextRecord(s: Session, kind: string, payload: Bytes): WalRecord {
    WalRecord(s.lastLsn + 1, s.lastLsn, kind, payload)
  }

  function AppendTo(cfg: Config, w: World, s: Session, kind: string, payload: Bytes, phase: Phase): World {
    var files := Appended(cfg, w.files, s.open, NextRecord(s, kind, payload));
    w.(files := files,
       session := Some(Session(true, s.lastLsn + 1, phase)),
       flushed := if cfg.sync == On then w.flushed + RecordsOf(Tail(files)) else w.flushed)
  }

  function FlushTo(cfg: Config, w: World, s: Session, phase: Phase): World {
    if s.open && w.files != [] && cfg.sync != Off then
      w.(files := SyncTail(w.files), session := Some(s.(phase := phase)), flushed := w.flushed
          + RecordsOf(Tail(w.files)))
    else
      w.(session := Some(s.(phase := phase)))
  }

  /** The LSN of the newest checkpoint marker above `floor`, else `floor`. */
  function Boundary(files: seq<Segment>, floor: Lsn): Lsn {
    if files == [] then floor else MarkerIn(Tail(files).written, Boundary(files[..|files| - 1], floor))
  }

  function MarkerIn(records: seq<WalRecord>, floor: Lsn): Lsn {
    if records == [] then floor
    else
      var n := |records| - 1;
      var below := MarkerIn(records[..n], floor);
      if records[n].kind == CHECKPOINT_KIND then Larger(below, records[n].lsn) else below
  }

  /** The manifest that recovery writes. */
  function Refreshed(w: World): Manifest {
    Manifest(Larger(w.manifest.lastLsn, MaxLsn(w.files)), Boundary(w.files, w.manifest.checkpointLsn))
  }

  /** Some closed file that `truncate_before` would still delete. */
  predicate MoreToPrune(files: seq<Segment>, lsn: Lsn) {
    exists i :: 0 <= i < |files| - 1 && Covered(files[i], lsn)
  }

  predicate Idling(w: World) {
    w.session.Some? && w.session.value.phase == Idle
  }

  ghost predicate Takes(cfg: Config, a: World, action: Action, b: World) {
    match action
    case Open =>
      a.session.None? && b == a.(session := Some(Session(false, MaxLsn(a.files), Idle)))
    case Append(kind, payload) =>
      && Idling(a) && InRange(cfg.env, NextRecord(a.session.value, kind, payload))
      && b == AppendTo(cfg, a, a.session.value, kind, payload, Idle)
    case Flush =>
      Idling(a) && b == FlushTo(cfg, a, a.session.value, Idle)
    case Close =>
      Idling(a) && b == a.(session := Some(a.session.value.(open := false)))
    case BeginCheckpoint =>
      && Idling(a) && a.session.value.lastLsn >= a.manifest.checkpointLsn
      && InRange(cfg.env, NextRecord(a.session.value, CHECKPOINT_KIND, []))
      && b == AppendTo(cfg, a, a.session.value, CHECKPOINT_KIND, [], Marked(a.session.value.lastLsn + 1))
    case FlushMarker =>
      && a.session.Some? && a.session.value.phase.Marked?
      && b == FlushTo(cfg, a, a.session.value, Flushed(a.session.value.phase.lsn))
    case WriteManifest =>
      && a.session.Some? && a.session.value.phase.Flushed?
      && var m := a.session.value.phase.lsn;
        b == a.(manifest := Manifest(m, m), session := Some(a.session.value.(phase := Pruning(m))))
    case DeleteSegment(i) =>
      && a.session.Some? && a.session.value.phase.Pruning?
      && i < |a.files| - 1 && Covered(a.files[i], a.session.value.phase.lsn)
      && b == a.(files := Without(a.files, i))
    case EndCheckpoint =>
      && a.session.Some? && a.session.value.phase.Pruning?
      && !MoreToPrune(a.files, a.session.value.phase.lsn)
      && b == a.(session := Some(a.session.value.(phase := Idle)))
    case Recover =>
      a.session.None? && b == a.(manifest := Refreshed(a))
    case Crash =>
      Torn(a.files, b.files) && b == a.(files := b.files, session := None)
  }

  /** An append puts the next number, the one before it, the kind and the payload at the end of the last file. */
  lemma AppendWrites(cfg: Config, a: World, kind: string, payload: Bytes, b: World)
    requires Takes(cfg, a, Append(kind, payload), b)
    ensures b.session.Some? && b.session.value.open && b.session.value.lastLsn == a.session.value.lastLsn + 1
    ensures var r := WalRecord(a.session.value.lastLsn + 1, a.session.value.lastLsn, kind, payload);
      && RecordAdded(cfg, a.files, a.session.value.open, r, b.files)
      && b.files != [] && r in b.files[|b.files| - 1].written && (cfg.sync == On ==> r in b.flushed)
  {
    var s := a.session.value;
    AppendedIsAdded(cfg, a.files, s.open, NextRecord(s, kind, payload));
  }

  /** A flush of an open log, outside mode off, covers everything in the last file. */
  lemma FlushCovers(cfg: Config, a: World, b: World)
    requires Takes(cfg, a, Flush, b) && a.session.value.open && a.files != [] && cfg.sync != Off
    ensures LastSynced(a.files, b.files)
    ensures forall r :: r in b.flushed <==> r in a.flushed || r in a.files[|a.files| - 1].written
  {
  }

  /** So what is appended and then flushed has been flushed. */
  lemma AppendThenFlush(cfg: Config, a: World, kind: string, payload: Bytes, b: World, c: World)
    requires Takes(cfg, a, Append(kind, payload), b) && Takes(cfg, b, Flush, c) && cfg.sync != Off
    ensures WalRecord(a.session.value.lastLsn + 1, a.session.value.lastLsn, kind, payload) in c.flushed
  {
    AppendWrites(cfg, a, kind, payload, b);
    FlushCovers(cfg, b, c);
  }

  // ---------------------------------------------------------------- the invariant

  ghost predicate NothingLost(w: World) {
    forall r :: r in w.flushed && r.lsn > w.manifest.checkpointLsn ==> SyncedIn(w.files, r)
  }

  /** Some durable record carries an LSN at or above `lsn`. */
  ghost predicate Reached(files: seq<Segment>, lsn: Lsn) {
    exists q :: SyncedIn(files, q) && q.lsn >= lsn
  }

  /** No deletion has taken the durable log back behind a record ever flushed. */
  ghost predicate HistoryReached(w: World) {
    forall r :: r in w.flushed ==> Reached(w.files, r.lsn)
  }

  /** An LSN names one record, among all ever flushed and all in the log. */
  ghost predicate OneRecordPerLsn(w: World) {
    && (forall r, q :: r in w.flushed && q in w.flushed && r.lsn == q.lsn ==> r == q)
    && (forall r, q :: r in w.flushed && InLog(w.files, q) && r.lsn == q.lsn ==> r == q)
  }

  ghost predicate TailHolds(files: seq<Segment>, lsn: Lsn) {
    files != [] && exists r :: r in SyncedPart(Tail(files)) && r.lsn == lsn
  }

  ghost predicate PhaseOk(w: World, s: Session) {
    match s.phase
    case Idle => true
    case Marked(m) =>
      && s.open && w.files != [] && m == s.lastLsn && m >= w.manifest.checkpointLsn
      && exists r :: r in Tail(w.files).written && r.lsn == m
    case Flushed(m) => s.open && m >= w.manifest.checkpointLsn && m <= s.lastLsn && TailHolds(w.files, m)
    case Pruning(m) => s.open && m == w.manifest.checkpointLsn && TailHolds(w.files, m)
  }

  ghost predicate SessionOk(w: World) {
    w.session.Some? ==>
      var s := w.session.value;
      && (forall q :: InLog(w.files, q) || q in w.flushed ==> q.lsn <= s.lastLsn)
      && (s.open ==> w.files != [])
      && PhaseOk(w, s)
  }

  ghost predicate Inv(w: World) {
    WellFormed(w.files) && NothingLost(w) && HistoryReached(w) && OneRecordPerLsn(w) && SessionOk(w)
  }

  lemma SyncedIsInLog(files: seq<Segment>, r: WalRecord)
    requires SyncedIn(files, r)
    ensures InLog(files, r)
  {
    var i :| 0 <= i < |files| && r in SyncedPart(files[i]);
    assert r in files[i].written;
  }

  lemma {:induction false} MaxInBounds(records: seq<WalRecord>)
    ensures forall r :: r in records ==> r.lsn <= MaxIn(records)
  {
    if records != [] {
      MaxInBounds(records[..|records| - 1]);
    }
  }

  lemma {:induction false} MaxLsnBounds(files: seq<Segment>)
    ensures forall r :: InLog(files, r) ==> r.lsn <= MaxLsn(files)
  {
    if files != [] {
      MaxLsnBounds(files[..|files| - 1]);
      MaxInBounds(Tail(files).written);
      forall r | InLog(files, r)
        ensures r.lsn <= MaxLsn(files)
      {
        SplitLast(files, r);
      }
    }
  }

  // ---------------------------------------------------------------- every step keeps it

  lemma OpenKeeps(a: World, b: World)
    requires Inv(a) && b == a.(session := Some(Session(false, MaxLsn(a.files), Idle)))
    ensures Inv(b)
  {
    MaxLsnBounds(a.files);
    forall r | r in a.flushed
      ensures r.lsn <= MaxLsn(a.files)
    {
      assert Reached(a.files, r.lsn);
      var q :| SyncedIn(a.files, q) && q.lsn >= r.lsn;
      SyncedIsInLog(a.files, q);
    }
  }

  /** What is durable stays durable, and what is newly flushed is durable. */
  lemma HistoryStaysReached(a: World, b: World)
    requires HistoryReached(a) && forall r :: SyncedIn(a.files, r) ==> SyncedIn(b.files, r)
    requires forall r :: r in b.flushed ==> r in a.flushed || SyncedIn(b.files, r)
    ensures HistoryReached(b)
  {
    forall r | r in b.flushed
      ensures Reached(b.files, r.lsn)
    {
      if r in a.flushed {
        assert Reached(a.files, r.lsn);
        var q :| SyncedIn(a.files, q) && q.lsn >= r.lsn;
        assert SyncedIn(b.files, q);
      }
    }
  }

  lemma AppendKeeps(cfg: Config, a: World, s: Session, kind: string, payload: Bytes, phase: Phase)
    requires Inv(a) && a.session == Some(s)
    requires phase == Idle || (phase == Marked(s.lastLsn + 1) && a.manifest.checkpointLsn <= s.lastLsn)
    ensures Inv(AppendTo(cfg, a, s, kind, payload, phase))
  {
    var b := AppendTo(cfg, a, s, kind, payload, phase);
    var r := NextRecord(s, kind, payload);
    AppendedKeeps(cfg, a.files, s.open, r);
    assert r in Tail(b.files).written;
    TailIsInLog(b.files);
    if cfg.sync == On {
      TailSyncedOnAppend(cfg, a.files, s.open, r);
    }
    HistoryStaysReached(a, b);
    FlushedGrows(a, b, r);
  }

  lemma TailIsInLog(files: seq<Segment>)
    requires files != []
    ensures forall q :: q in Tail(files).written ==> InLog(files, q)
  {
  }

  lemma TailSyncedOnAppend(cfg: Config, files: seq<Segment>, open: bool, r: WalRecord)
    requires cfg.sync == On
    ensures forall q :: q in Tail(Appended(cfg, files, open, r)).written ==> SyncedIn(Appended(cfg, files, open, r), q)
  {
    var out := Appended(cfg, files, open, r);
    assert SyncedPart(Tail(out)) == Tail(out).written;
  }

  /** Adding fresh records, and flushing records of the last segment, keeps what the history promises. */
  lemma FlushedGrows(a: World, b: World, r: WalRecord)
    requires NothingLost(a) && OneRecordPerLsn(a) && WellFormed(b.files) && b.files != [] && b.manifest == a.manifest
    requires forall q :: q in a.flushed || InLog(a.files, q) ==> q.lsn < r.lsn || q == r
    requires forall q :: InLog(b.files, q) ==> InLog(a.files, q) || q == r
    requires forall q :: SyncedIn(a.files, q) ==> SyncedIn(b.files, q)
    requires forall q :: q in b.flushed ==> q in a.flushed || (InLog(b.files, q) && SyncedIn(b.files, q))
    ensures NothingLost(b) && OneRecordPerLsn(b)
  {
    forall p, q | p in b.flushed && InLog(b.files, q) && p.lsn == q.lsn
      ensures p == q
    {
      if p !in a.flushed {
        LogIsUnique(b.files, p, q);
      }
    }
    forall p, q | p in b.flushed && q in b.flushed && p.lsn == q.lsn
      ensures p == q
    {
      if p !in a.flushed && q !in a.flushed {
        LogIsUnique(b.files, p, q);
      }
    }
  }

  lemma LogIsUnique(files: seq<Segment>, p: WalRecord, q: WalRecord)
    requires WellFormed(files) && InLog(files, p) && InLog(files, q) && p.lsn == q.lsn
    ensures p == q
  {
    var i :| 0 <= i < |files| && p in files[i].written;
    var j :| 0 <= j < |files| && q in files[j].written;
    if i == j {
      assert Sane(files[i]);
      RisingIsUnique(files[i].written, p, q);
    } else if i < j {
      BeforeIsSmaller(files[i], files[j], p, q);
    } else {
      BeforeIsSmaller(files[j], files[i], q, p);
    }
  }

  lemma RisingIsUnique(records: seq<WalRecord>, p: WalRecord, q: WalRecord)
    requires Rising(records) && p in records && q in records && p.lsn == q.lsn
    ensures p == q
  {
    var i :| 0 <= i < |records| && records[i] == p;
    var j :| 0 <= j < |records| && records[j] == q;
    assert i < j ==> records[i].lsn < records[j].lsn;
    assert j < i ==> records[j].lsn < records[i].lsn;
  }

  lemma BeforeIsSmaller(a: Segment, b: Segment, r: WalRecord, q: WalRecord)
    requires Before(a, b) && r in a.written && q in b.written
    ensures r.lsn < q.lsn
  {
  }

  /** A flush, in mode group or on, of any session; the phase moves from marked to flushed or stays idle. */
  lemma FlushKeeps(cfg: Config, a: World, s: Session, phase: Phase)
    requires Inv(a) && a.session == Some(s) && cfg.sync != Off
    requires phase == Idle || (s.phase.Marked? && phase == Flushed(s.phase.lsn))
    ensures Inv(FlushTo(cfg, a, s, phase))
  {
    if s.open {
      FlushKeepsHistory(cfg, a, s, phase);
      FlushKeepsSession(cfg, a, s, phase);
    }
  }

  lemma FlushKeepsHistory(cfg: Config, a: World, s: Session, phase: Phase)
    requires Inv(a) && a.session == Some(s) && cfg.sync != Off && s.open
    ensures var b := FlushTo(cfg, a, s, phase);
      WellFormed(b.files) && NothingLost(b) && OneRecordPerLsn(b) && HistoryReached(b)
  {
    var b := FlushTo(cfg, a, s, phase);
    SyncTailKeeps(a.files);
    TailIsInLog(a.files);
    HistoryStaysReached(a, b);
    FlushedGrows(a, b, WalRecord(s.lastLsn + 1, 0, "", []));
  }

  lemma FlushKeepsSession(cfg: Config, a: World, s: Session, phase: Phase)
    requires WellFormed(a.files) && SessionOk(a) && a.session == Some(s) && cfg.sync != Off && s.open
    requires phase == Idle || (s.phase.Marked? && phase == Flushed(s.phase.lsn))
    ensures SessionOk(FlushTo(cfg, a, s, phase))
  {
    var b := FlushTo(cfg, a, s, phase);
    SyncTailKeeps(a.files);
    TailIsInLog(a.files);
    assert SyncedPart(Tail(b.files)) == Tail(a.files).written;
  }

  lemma WriteManifestKeeps(a: World, b: World, s: Session, m: Lsn)
    requires Inv(a) && a.session == Some(s) && s.phase == Flushed(m)
    requires b == a.(manifest := Manifest(m, m), session := Some(s.(phase := Pruning(m))))
    ensures Inv(b)
  {
  }

  /** Deleting a closed file that the checkpoint covers. */
  lemma DeleteKeeps(a: World, b: World, s: Session, i: nat)
    requires Inv(a) && a.session == Some(s) && s.phase.Pruning?
    requires i < |a.files| - 1 && Covered(a.files[i], s.phase.lsn) && b == a.(files := Without(a.files, i))
    ensures Inv(b)
  {
    WithoutKeeps(a.files, i);
    CoveredIsBelow(a.files, i, s.phase.lsn);
    UncoveredStay(a, b, i);
    DeleteKeepsReached(a, b, s, i);
    DeleteKeepsSession(a, b, s, i);
  }

  lemma DeleteKeepsReached(a: World, b: World, s: Session, i: nat)
    requires HistoryReached(a) && SessionOk(a) && a.session == Some(s) && s.phase.Pruning? && i < |a.files| - 1
    requires b == a.(files := Without(a.files, i)) && forall q :: q in a.files[i].written ==> q.lsn <= s.phase.lsn
    requires forall q :: SyncedIn(a.files, q) && q !in a.files[i].written ==> SyncedIn(b.files, q)
    ensures HistoryReached(b)
  {
    assert Tail(b.files) == Tail(a.files);
    TailReaches(b.files, s.phase.lsn);
    var top :| SyncedIn(b.files, top) && top.lsn >= s.phase.lsn;
    forall r | r in b.flushed
      ensures Reached(b.files, r.lsn)
    {
      assert Reached(a.files, r.lsn);
      var q :| SyncedIn(a.files, q) && q.lsn >= r.lsn;
      assert if q in a.files[i].written then top.lsn >= r.lsn else SyncedIn(b.files, q);
    }
  }

  lemma DeleteKeepsSession(a: World, b: World, s: Session, i: nat)
    requires SessionOk(a) && a.session == Some(s) && s.phase.Pruning? && i < |a.files| - 1
    requires b == a.(files := Without(a.files, i)) && forall q :: InLog(b.files, q) ==> InLog(a.files, q)
    ensures SessionOk(b)
  {
    assert Tail(b.files) == Tail(a.files);
  }

  lemma TailReaches(files: seq<Segment>, m: Lsn)
    requires TailHolds(files, m)
    ensures Reached(files, m)
  {
    var r :| r in SyncedPart(Tail(files)) && r.lsn == m;
    assert SyncedIn(files, r);
  }

  lemma UncoveredStay(a: World, b: World, i: nat)
    requires NothingLost(a) && i < |a.files| && b.flushed == a.flushed && b.manifest == a.manifest
    requires forall q :: q in a.files[i].written ==> q.lsn <= a.manifest.checkpointLsn
    requires forall q :: SyncedIn(a.files, q) && q !in a.files[i].written ==> SyncedIn(b.files, q)
    ensures NothingLost(b)
  {
  }

  lemma CrashKeeps(a: World, b: World)
    requires Inv(a) && Torn(a.files, b.files) && b == a.(files := b.files, session := None)
    ensures Inv(b)
  {
    TornKeeps(a.files, b.files);
    HistoryStaysReached(a, b);
  }

  lemma {:induction false} MarkerAboveFloor(records: seq<WalRecord>, floor: Lsn)
    ensures floor <= MarkerIn(records, floor)
  {
    if records != [] {
      MarkerAboveFloor(records[..|records| - 1], floor);
    }
  }

  lemma {:induction false} BoundaryAboveFloor(files: seq<Segment>, floor: Lsn)
    ensures floor <= Boundary(files, floor)
  {
    if files != [] {
      BoundaryAboveFloor(files[..|files| - 1], floor);
      MarkerAboveFloor(Tail(files).written, Boundary(files[..|files| - 1], floor));
    }
  }

  lemma CloseKeeps(a: World, s: Session)
    requires Inv(a) && a.session == Some(s) && s.phase == Idle
    ensures Inv(a.(session := Some(s.(open := false))))
  {
  }

  /** Recovery, whatever marker it adopts. */
  lemma RecoverKeeps(a: World, b: World)
    requires Inv(a) && a.session.None? && b == a.(manifest := Refreshed(a))
    ensures Inv(b)
  {
    BoundaryAboveFloor(a.files, a.manifest.checkpointLsn);
  }

  lemma CheckpointStepKeeps(cfg: Config, a: World, action: Action, b: World)
    requires cfg.sync != Off && Inv(a) && Takes(cfg, a, action, b)
    requires action.WriteManifest? || action.DeleteSegment? || action.EndCheckpoint?
    ensures Inv(b)
  {
    var s := a.session.value;
    match action
    case WriteManifest => WriteManifestKeeps(a, b, s, s.phase.lsn);
    case DeleteSegment(i) => DeleteKeeps(a, b, s, i);
    case EndCheckpoint =>
  }

  lemma AppendStepKeeps(cfg: Config, a: World, action: Action, b: World)
    requires Inv(a) && Takes(cfg, a, action, b) && (action.Append? || action.BeginCheckpoint?)
    ensures Inv(b)
  {
    var s := a.session.value;
    if action.Append? {
      AppendKeeps(cfg, a, s, action.kind, action.payload, Idle);
    } else {
      AppendKeeps(cfg, a, s, CHECKPOINT_KIND, [], Marked(s.lastLsn + 1));
    }
  }

  lemma FlushStepKeeps(cfg: Config, a: World, action: Action, b: World)
    requires cfg.sync != Off && Inv(a) && Takes(cfg, a, action, b) && (action.Flush? || action.FlushMarker?)
    ensures Inv(b)
  {
    var s := a.session.value;
    if action.Flush? {
      FlushKeeps(cfg, a, s, Idle);
    } else {
      FlushKeeps(cfg, a, s, Flushed(s.phase.lsn));
    }
  }

  /** Every step of the protocol, crashes included, keeps the invariant. */
  lemma StepKeeps(cfg: Config, a: World, action: Action, b: World)
    requires cfg.sync != Off && Inv(a) && Takes(cfg, a, action, b)
    ensures Inv(b)
  {
    if action.WriteManifest? || action.DeleteSegment? || action.EndCheckpoint? {
      CheckpointStepKeeps(cfg, a, action, b);
    } else if action.Append? || action.BeginCheckpoint? {
      AppendStepKeeps(cfg, a, action, b);
    } else if action.Flush? || action.FlushMarker? {
      FlushStepKeeps(cfg, a, action, b);
    } else if action.Close? {
      CloseKeeps(a, a.session.value);
    } else if action.Open? {
      OpenKeeps(a, b);
    } else if action.Recover? {
      RecoverKeeps(a, b);
    } else {
      CrashKeeps(a, b);
    }
  }

  // ---------------------------------------------------------------- whole runs

  ghost predicate Run(cfg: Config, worlds: seq<World>, actions: seq<Action>) {
    && |worlds| == |actions| + 1 && worlds[0] == FreshWorld()
    && forall i :: 0 <= i < |actions| ==> Takes(cfg, worlds[i], actions[i], worlds[i + 1])
  }

  lemma {:induction false} RunInv(cfg: Config, worlds: seq<World>, actions: seq<Action>, n: nat)
    requires cfg.sync != Off && Run(cfg, worlds, actions) && n < |worlds|
    ensures Inv(worlds[n])
  {
    if n > 0 {
      RunInv(cfg, worlds, actions, n - 1);
      StepKeeps(cfg, worlds[n - 1], actions[n - 1], worlds[n]);
    }
  }

  lemma {:induction false} HistoryGrows(cfg: Config, worlds: seq<World>, actions: seq<Action>, m: nat, n: nat)
    requires Run(cfg, worlds, actions) && m <= n < |worlds|
    ensures worlds[m].flushed <= worlds[n].flushed
  {
    if m < n {
      HistoryGrows(cfg, worlds, actions, m, n - 1);
      assert Takes(cfg, worlds[n - 1], actions[n - 1], worlds[n]);
    }
  }

  /**
    At every point of every run, a record flushed at any earlier point is in the
    log or at or below the manifest's checkpoint.
    */
  lemma FlushedRecordsSurvive(cfg: Config, worlds: seq<World>, actions: seq<Action>, m: nat, n: nat, r: WalRecord)
    requires cfg.sync != Off && Run(cfg, worlds, actions) && m <= n < |worlds| && r in worlds[m].flushed
    ensures InLog(worlds[n].files, r) || r.lsn <= worlds[n].manifest.checkpointLsn
  {
    RunInv(cfg, worlds, actions, n);
    HistoryGrows(cfg, worlds, actions, m, n);
    if r.lsn > worlds[n].manifest.checkpointLsn {
      SyncedIsInLog(worlds[n].files, r);
    }
  }

  predicate Writes(action: Action) {
    action.Append? || action.BeginCheckpoint?
  }

  /**
    An append never reuses an LSN: not of a record in the log, and not of a record
    flushed at any time, deleted since or not.
    */
  lemma NoLsnIsReused(cfg: Config, worlds: seq<World>, actions: seq<Action>, m: nat, n: nat, r: WalRecord)
    requires cfg.sync != Off && Run(cfg, worlds, actions) && m <= n < |actions| && Writes(actions[n])
    requires r in worlds[m].flushed || InLog(worlds[n].files, r)
    ensures worlds[n].session.Some? && r.lsn <= worlds[n].session.value.lastLsn
  {
    RunInv(cfg, worlds, actions, n);
    HistoryGrows(cfg, worlds, actions, m, n);
    assert Takes(cfg, worlds[n], actions[n], worlds[n + 1]);
  }

  // ---------------------------------------------------------------- a log ahead of its manifest

  /** Some durable record carries an LSN at or above the manifest's checkpoint. */
  ghost predicate Anchored(files: seq<Segment>, checkpointLsn: Lsn) {
    checkpointLsn == 0 || Reached(files, checkpointLsn)
  }

  /** The durable log, and any session on it, is not behind the manifest. */
  ghost predicate Ahead(w: World) {
    && Anchored(w.files, w.manifest.checkpointLsn)
    && (w.session.Some? ==> w.manifest.checkpointLsn <= w.session.value.lastLsn)
  }

  /** A recovery that adopts nothing beyond the durable log. */
  ghost predicate SafeRecovery(w: World) {
    Anchored(w.files, Refreshed(w).checkpointLsn)
  }

  lemma AnchoredStays(files: seq<Segment>, out: seq<Segment>, checkpointLsn: Lsn)
    requires Anchored(files, checkpointLsn) && forall r :: SyncedIn(files, r) ==> SyncedIn(out, r)
    ensures Anchored(out, checkpointLsn)
  {
    if checkpointLsn != 0 {
      var q :| SyncedIn(files, q) && q.lsn >= checkpointLsn;
      assert SyncedIn(out, q);
    }
  }

  lemma OpenStaysAhead(a: World, b: World)
    requires Ahead(a) && b == a.(session := Some(Session(false, MaxLsn(a.files), Idle)))
    ensures Ahead(b)
  {
    MaxLsnBounds(a.files);
    if a.manifest.checkpointLsn > 0 {
      var r :| SyncedIn(a.files, r) && r.lsn >= a.manifest.checkpointLsn;
      SyncedIsInLog(a.files, r);
    }
  }

  lemma WriteStaysAhead(cfg: Config, a: World, action: Action, b: World)
    requires Inv(a) && Ahead(a) && Takes(cfg, a, action, b) && (action.Append? || action.BeginCheckpoint?)
    ensures Ahead(b)
  {
    var s := a.session.value;
    var r := if action.Append? then NextRecord(s, action.kind, action.payload) else NextRecord(s, CHECKPOINT_KIND, []);
    AppendedKeeps(cfg, a.files, s.open, r);
    AnchoredStays(a.files, b.files, a.manifest.checkpointLsn);
  }

  lemma FlushStaysAhead(cfg: Config, a: World, action: Action, b: World)
    requires cfg.sync != Off && Inv(a) && Ahead(a) && Takes(cfg, a, action, b) && (action.Flush? || action.FlushMarker?)
    ensures Ahead(b)
  {
    if a.session.value.open {
      SyncTailKeeps(a.files);
      AnchoredStays(a.files, b.files, a.manifest.checkpointLsn);
    }
  }

  lemma TailAnchors(w: World, m: Lsn)
    requires TailHolds(w.files, m) && w.manifest.checkpointLsn == m
    ensures Anchored(w.files, w.manifest.checkpointLsn)
  {
    TailReaches(w.files, m);
  }

  lemma WriteManifestStaysAhead(cfg: Config, a: World, b: World)
    requires SessionOk(a) && Takes(cfg, a, WriteManifest, b)
    ensures Ahead(b)
  {
    TailAnchors(b, a.session.value.phase.lsn);
  }

  lemma DeleteStaysAhead(cfg: Config, a: World, i: nat, b: World)
    requires SessionOk(a) && Ahead(a) && Takes(cfg, a, DeleteSegment(i), b)
    ensures Ahead(b)
  {
    assert Tail(b.files) == Tail(a.files);
    TailAnchors(b, a.session.value.phase.lsn);
  }

  /** Every step but an unsafe recovery keeps the log ahead of its manifest. */
  lemma StepStaysAhead(cfg: Config, a: World, action: Action, b: World)
    requires cfg.sync != Off && Inv(a) && Ahead(a) && Takes(cfg, a, action, b) && (action.Recover? ==> SafeRecovery(a))
    ensures Ahead(b)
  {
    if action.WriteManifest? {
      WriteManifestStaysAhead(cfg, a, b);
    } else if action.DeleteSegment? {
      DeleteStaysAhead(cfg, a, action.i, b);
    } else if action.Append? || action.BeginCheckpoint? {
      WriteStaysAhead(cfg, a, action, b);
    } else if action.Flush? || action.FlushMarker? {
      FlushStaysAhead(cfg, a, action, b);
    } else if action.Open? {
      OpenStaysAhead(a, b);
    } else if action.Crash? {
      TornKeeps(a.files, b.files);
      AnchoredStays(a.files, b.files, a.manifest.checkpointLsn);
    }
  }

  ghost predicate RecoversSafely(worlds: seq<World>, actions: seq<Action>, n: nat) {
    forall i :: 0 <= i < n && i < |worlds| && i < |actions| && actions[i].Recover? ==> SafeRecovery(worlds[i])
  }

  lemma {:induction false} RunStaysAhead(cfg: Config, worlds: seq<World>, actions: seq<Action>, n: nat)
    requires cfg.sync != Off && Run(cfg, worlds, actions) && n < |worlds| && RecoversSafely(worlds, actions, n)
    ensures Ahead(worlds[n])
  {
    if n > 0 {
      RunStaysAhead(cfg, worlds, actions, n - 1);
      RunInv(cfg, worlds, actions, n - 1);
      StepStaysAhead(cfg, worlds[n - 1], actions[n - 1], worlds[n]);
    }
  }

  /** After safe recoveries only, no append gets an LSN that the checkpoint already covers. */
  lemma NoCoveredLsnIsHandedOut(cfg: Config, worlds: seq<World>, actions: seq<Action>, n: nat)
    requires cfg.sync != Off && Run(cfg, worlds, actions) && n < |actions| && Writes(actions[n])
      && RecoversSafely(worlds, actions, n)
    ensures worlds[n].session.Some? && worlds[n].manifest.checkpointLsn < worlds[n].session.value.lastLsn + 1
  {
    RunStaysAhead(cfg, worlds, actions, n);
    assert Takes(cfg, worlds[n], actions[n], worlds[n + 1]);
  }

  /** And no checkpoint is refused with CDB-7060. */
  lemma CheckpointIsNeverRefused(cfg: Config, worlds: seq<World>, actions: seq<Action>, n: nat)
    requires cfg.sync != Off && Run(cfg, worlds, actions) && n < |worlds| && worlds[n].session.Some?
      && RecoversSafely(worlds, actions, n)
    ensures worlds[n].session.value.lastLsn >= worlds[n].manifest.checkpointLsn
  {
    RunStaysAhead(cfg, worlds, actions, n);
  }
}
