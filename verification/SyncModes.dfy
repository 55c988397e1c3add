/** What each sync mode of the log buys, and where its promise ends (storage/wal.py, storage/recovery.py). */
module SyncModes {
  import opened Results
  import opened WalCodec
  import opened WalLog
  import opened Durability

  predicate FullySynced(seg: Segment) {
    seg.synced == |seg.written|
  }

  predicate AllSynced(files: seq<Segment>) {
    forall i :: 0 <= i < |files| ==> FullySynced(files[i])
  }

  // ---------------------------------------------------------------- mode "on"

  lemma CreatedSynced(files: seq<Segment>)
    requires AllSynced(files)
    ensures AllSynced(Created(files))
  {
  }

  lemma SyncWrittenSynced(files: seq<Segment>, r: WalRecord)
    requires AllSynced(files) && files != []
    ensures AllSynced(SyncTail(WriteTail(files, r)))
  {
    var out := SyncTail(WriteTail(files, r));
    forall i | 0 <= i < |out|
      ensures FullySynced(out[i])
    {
      assert i < |out| - 1 ==> out[i] == files[i];
    }
  }

  lemma OnAppendSynced(cfg: Config, files: seq<Segment>, open: bool, r: WalRecord)
    requires cfg.sync == On && AllSynced(files)
    ensures AllSynced(Appended(cfg, files, open, r))
  {
    CreatedSynced(files);
    CreatedSynced(Created(files));
    SyncWrittenSynced(Ensured(cfg, files, open, |Encoded(cfg.env, r)|), r);
  }

  lemma TornOfSynced(files: seq<Segment>, out: seq<Segment>)
    requires AllSynced(files) && Torn(files, out)
    ensures out == files
  {
    forall i | 0 <= i < |files|
      ensures out[i] == files[i]
    {
      assert FullySynced(files[i]) && TornTo(files[i], out[i]);
      assert SyncedPart(files[i]) == files[i].written;
    }
  }

  lemma OnStepSynced(cfg: Config, a: World, action: Action, b: World)
    requires cfg.sync == On && AllSynced(a.files) && Takes(cfg, a, action, b)
    ensures AllSynced(b.files)
  {
    match action
    case Append(kind, payload) => OnAppendSynced(cfg, a.files, a.session.value.open,
        NextRecord(a.session.value, kind, payload));
    case BeginCheckpoint => OnAppendSynced(cfg, a.files, a.session.value.open,
        NextRecord(a.session.value, CHECKPOINT_KIND, []));
    case Crash => TornOfSynced(a.files, b.files);
    case _ =>
  }

  lemma {:induction false} OnRunSynced(cfg: Config, worlds: seq<World>, actions: seq<Action>, n: nat)
    requires cfg.sync == On && Run(cfg, worlds, actions) && n < |worlds|
    ensures AllSynced(worlds[n].files)
  {
    if n > 0 {
      OnRunSynced(cfg, worlds, actions, n - 1);
      OnStepSynced(cfg, worlds[n - 1], actions[n - 1], worlds[n]);
    }
  }

  /** In mode "on", a crash at any point of any run leaves every segment as it was. */
  lemma OnModeCrashLosesNothing(cfg: Config, worlds: seq<World>, actions: seq<Action>, n: nat)
    requires cfg.sync == On && Run(cfg, worlds, actions) && n < |actions| && actions[n] == Crash
    ensures worlds[n + 1].files == worlds[n].files
  {
    OnRunSynced(cfg, worlds, actions, n);
    assert Takes(cfg, worlds[n], actions[n], worlds[n + 1]);
    TornOfSynced(worlds[n].files, worlds[n + 1].files);
  }

  lemma {:induction false} MarkerAttained(records: seq<WalRecord>, floor: Lsn)
    ensures MarkerIn(records, floor) == floor || exists r :: r in records && r.lsn == MarkerIn(records, floor)
  {
    if records != [] {
      var n := |records| - 1;
      MarkerAttained(records[..n], floor);
      if MarkerIn(records, floor) == MarkerIn(records[..n], floor) {
        if MarkerIn(records, floor) != floor {
          var r :| r in records[..n] && r.lsn == MarkerIn(records[..n], floor);
          assert r in records;
        }
      } else {
        assert records[n] in records;
      }
    }
  }

  /** Recovery keeps the old checkpoint or adopts the LSN of a record of the log. */
  lemma {:induction false} BoundaryAttained(files: seq<Segment>, floor: Lsn)
    ensures Boundary(files, floor) == floor || exists r :: InLog(files, r) && r.lsn == Boundary(files, floor)
  {
    if files != [] {
      var n := |files| - 1;
      var below := Boundary(files[..n], floor);
      BoundaryAttained(files[..n], floor);
      MarkerAttained(files[n].written, below);
      if Boundary(files, floor) != below {
        var r :| r in files[n].written && r.lsn == Boundary(files, floor);
        SplitLast(files, r);
      } else if below != floor {
        var r :| InLog(files[..n], r) && r.lsn == below;
        SplitLast(files, r);
      }
    }
  }

  lemma SyncedLogRecoversSafely(w: World)
    requires AllSynced(w.files) && Ahead(w)
    ensures SafeRecovery(w)
  {
    var floor := w.manifest.checkpointLsn;
    BoundaryAttained(w.files, floor);
    if Boundary(w.files, floor) != floor {
      var r :| InLog(w.files, r) && r.lsn == Boundary(w.files, floor);
      SyncedFilesSyncLog(w.files);
    }
  }

  /** In mode "on" every recovery of every run is safe, so the log is never behind its manifest. */
  lemma {:induction false} OnModeRecoversSafely(cfg: Config, worlds: seq<World>, actions: seq<Action>, n: nat)
    requires cfg.sync == On && Run(cfg, worlds, actions) && n < |worlds|
    ensures RecoversSafely(worlds, actions, n) && Ahead(worlds[n]) && SafeRecovery(worlds[n])
  {
    if n > 0 {
      OnModeRecoversSafely(cfg, worlds, actions, n - 1);
      RunStaysAhead(cfg, worlds, actions, n);
    }
    OnRunSynced(cfg, worlds, actions, n);
    SyncedLogRecoversSafely(worlds[n]);
  }

  // ---------------------------------------------------------------- mode "group"

  lemma FirstUnsynced(seg: Segment)
    requires Sane(seg) && !FullySynced(seg)
    ensures seg.synced < |seg.written| && seg.written[seg.synced] !in SyncedPart(seg)
  {
    var r := seg.written[seg.synced];
    forall k | 0 <= k < |SyncedPart(seg)|
      ensures SyncedPart(seg)[k] != r
    {
      assert SyncedPart(seg)[k] == seg.written[k] && seg.written[k].lsn < r.lsn;
    }
  }

  lemma ElsewhereUnsynced(a: Segment, b: Segment, r: WalRecord)
    requires (Before(a, b) || Before(b, a)) && r in a.written
    ensures r !in SyncedPart(b)
  {
    forall k | 0 <= k < |SyncedPart(b)|
      ensures SyncedPart(b)[k] != r
    {
      assert SyncedPart(b)[k] == b.written[k] && b.written[k] in b.written;
    }
  }

  lemma UnsyncedRecord(files: seq<Segment>, i: nat)
    requires WellFormed(files) && i < |files| && !FullySynced(files[i])
    ensures var seg := files[i];
      seg.synced < |seg.written| && InLog(files, seg.written[seg.synced]) && !SyncedIn(files, seg.written[seg.synced])
  {
    var seg := files[i];
    FirstUnsynced(seg);
    var r := seg.written[seg.synced];
    forall j | 0 <= j < |files|
      ensures r !in SyncedPart(files[j])
    {
      if j != i {
        assert Before(seg, files[j]) || Before(files[j], seg);
        ElsewhereUnsynced(seg, files[j], r);
      }
    }
  }

  lemma SyncedFilesSyncLog(files: seq<Segment>)
    requires AllSynced(files)
    ensures forall r :: InLog(files, r) ==> SyncedIn(files, r)
  {
    forall r | InLog(files, r)
      ensures SyncedIn(files, r)
    {
      var i :| 0 <= i < |files| && r in files[i].written;
      assert FullySynced(files[i]) && SyncedPart(files[i]) == files[i].written;
    }
  }

  ghost predicate LogDurable(files: seq<Segment>) {
    forall r :: InLog(files, r) ==> SyncedIn(files, r)
  }

  lemma LogDurableIffAllSynced(files: seq<Segment>)
    requires WellFormed(files)
    ensures LogDurable(files) <==> AllSynced(files)
  {
    if AllSynced(files) {
      SyncedFilesSyncLog(files);
    }
    if LogDurable(files) {
      forall i | 0 <= i < |files|
        ensures FullySynced(files[i])
      {
        if !FullySynced(files[i]) {
          UnsyncedRecord(files, i);
        }
      }
    }
  }

  lemma SyncTailSynced(files: seq<Segment>)
    requires files != []
    ensures AllSynced(SyncTail(files)) <==> AllSynced(files[..|files| - 1])
  {
    var n, out := |files| - 1, SyncTail(files);
    assert FullySynced(out[n]) && forall i :: 0 <= i < n ==> out[i] == files[..n][i];
  }

  /**
    After `flush` the whole log is durable if and only if every segment before
    the open one already was: a roll-over closes a segment without an fsync, and
    no later flush reaches it.
    */
  lemma FlushCoversLogIffRolledSegmentsDid(cfg: Config, a: World, b: World)
    requires cfg.sync != Off && Inv(a) && Takes(cfg, a, Flush, b) && a.session.value.open
    ensures LogDurable(b.files) <==> AllSynced(a.files[..|a.files| - 1])
  {
    SyncTailKeeps(a.files);
    SyncTailSynced(a.files);
    LogDurableIffAllSynced(SyncTail(a.files));
  }

  /** An append that rolls over while the open segment has unsynced records leaves such a segment behind. */
  lemma RollOverLeavesUnsynced(cfg: Config, files: seq<Segment>, r: WalRecord)
    requires files != [] && !FullySynced(Tail(files))
    requires Size(cfg.env, Tail(files)) + |Encoded(cfg.env, r)| > cfg.rollSize
    ensures var out := Appended(cfg, files, true, r); !AllSynced(out[..|out| - 1])
  {
    var out := Appended(cfg, files, true, r);
    assert out[|files| - 1] == Tail(files) && |out| == |files| + 1;
    assert out[..|out| - 1][|files| - 1] == Tail(files);
  }

  // ---------------------------------------------------------------- manifests that outrun the log

  /** Everything but the synced parts gone. */
  function Worst(files: seq<Segment>): (out: seq<Segment>)
    ensures |out| == |files| && forall i :: 0 <= i < |files| ==> out[i] == files[i].(written := SyncedPart(files[i]))
  {
    seq(|files|, i requires 0 <= i < |files| => files[i].(written := SyncedPart(files[i])))
  }

  lemma WorstIsTorn(files: seq<Segment>)
    requires WellFormed(files)
    ensures Torn(files, Worst(files))
  {
    forall i | 0 <= i < |files|
      ensures TornTo(files[i], Worst(files)[i])
    {
      assert Sane(files[i]);
    }
  }

  lemma {:induction false} MaxInAttained(records: seq<WalRecord>)
    ensures MaxIn(records) == 0 || exists r :: r in records && r.lsn == MaxIn(records)
  {
    if records != [] {
      MaxInAttained(records[..|records| - 1]);
      var n := |records| - 1;
      if MaxIn(records) == MaxIn(records[..n]) && MaxIn(records) != 0 {
        var r :| r in records[..n] && r.lsn == MaxIn(records[..n]);
        assert r in records;
      } else {
        assert records[n] in records;
      }
    }
  }

  lemma {:induction false} MaxLsnAttained(files: seq<Segment>)
    ensures MaxLsn(files) == 0 || exists r :: InLog(files, r) && r.lsn == MaxLsn(files)
  {
    if files != [] {
      var n := |files| - 1;
      MaxLsnAttained(files[..n]);
      MaxInAttained(files[n].written);
      if MaxLsn(files) != 0 {
        if MaxLsn(files) == MaxLsn(files[..n]) {
          var r :| InLog(files[..n], r) && r.lsn == MaxLsn(files[..n]);
          SplitLast(files, r);
        } else {
          var r :| r in files[n].written && r.lsn == MaxIn(files[n].written);
          SplitLast(files, r);
        }
      }
    }
  }

  lemma WorstLogIsSynced(files: seq<Segment>, r: WalRecord)
    requires InLog(Worst(files), r)
    ensures SyncedIn(files, r)
  {
    var i :| 0 <= i < |files| && r in Worst(files)[i].written;
    assert r in SyncedPart(files[i]);
  }

  /**
    A manifest may carry `checkpointLsn` if and only if a durable record reaches
    it: otherwise some crash leaves a log whose next LSN the manifest already
    covers, and recovery would skip the record that gets it. A checkpoint in mode
    "off" and a recovery that adopts an unsynced marker both hinge on this.
    */
  lemma AnchoredIffLsnsStayAhead(files: seq<Segment>, checkpointLsn: Lsn)
    requires WellFormed(files)
    ensures Anchored(files, checkpointLsn) <==> forall out :: Torn(files, out) ==> checkpointLsn <= MaxLsn(out)
  {
    if Anchored(files, checkpointLsn) {
      forall out | Torn(files, out)
        ensures checkpointLsn <= MaxLsn(out)
      {
        TornKeeps(files, out);
        MaxLsnBounds(out);
        if checkpointLsn != 0 {
          var r :| SyncedIn(files, r) && r.lsn >= checkpointLsn;
          SyncedIsInLog(out, r);
        }
      }
    }
    if forall out :: Torn(files, out) ==> checkpointLsn <= MaxLsn(out) {
      WorstIsTorn(files);
      WorstReaches(files, checkpointLsn);
    }
  }

  lemma WorstReaches(files: seq<Segment>, lsn: Lsn)
    requires lsn <= MaxLsn(Worst(files))
    ensures Anchored(files, lsn)
  {
    MaxLsnAttained(Worst(files));
    if lsn != 0 {
      var r :| InLog(Worst(files), r) && r.lsn == MaxLsn(Worst(files));
      WorstLogIsSynced(files, r);
    }
  }

  /** A recovery is safe if and only if no crash right after it can leave the log behind the new manifest. */
  lemma RecoveryIsSafeIff(cfg: Config, a: World, b: World)
    requires Inv(a) && Takes(cfg, a, Recover, b)
    ensures SafeRecovery(a) <==>
      forall c, d :: Takes(cfg, b, Crash, c) && Takes(cfg, c, Open, d) ==>
          d.manifest.checkpointLsn <= d.session.value.lastLsn
  {
    var lsn := Refreshed(a).checkpointLsn;
    AnchoredIffLsnsStayAhead(a.files, lsn);
    if forall c, d :: Takes(cfg, b, Crash, c) && Takes(cfg, c, Open, d) ==>
        d.manifest.checkpointLsn <= d.session.value.lastLsn {
      forall out | Torn(a.files, out)
        ensures lsn <= MaxLsn(out)
      {
        var c := b.(files := out, session := None);
        var d := c.(session := Some(Session(false, MaxLsn(out), Idle)));
        assert Takes(cfg, b, Crash, c) && Takes(cfg, c, Open, d);
      }
    }
  }

  predicate NothingSynced(files: seq<Segment>) {
    forall i :: 0 <= i < |files| ==> files[i].synced == 0
  }

  predicate AllEmpty(files: seq<Segment>) {
    forall i :: 0 <= i < |files| ==> files[i].written == []
  }

  lemma {:induction false} EmptyLog(files: seq<Segment>)
    requires AllEmpty(files)
    ensures MaxLsn(files) == 0
  {
    if files != [] {
      EmptyLog(files[..|files| - 1]);
    }
  }

  /** The first record of a new directory, unless each append is synced. */
  lemma FirstAppend(cfg: Config, r: WalRecord)
    requires cfg.sync != On
    ensures var out := Appended(cfg, [], false, r); NothingSynced(out) && Tail(out).written == [r]
  {
  }

  lemma UnsyncedTornToNothing(files: seq<Segment>)
    requires NothingSynced(files)
    ensures Torn(files, files) && Torn(files, Worst(files)) && AllEmpty(Worst(files))
  {
  }

  lemma MarkFresh(cfg: Config) returns (w1: World, w2: World)
    requires cfg.sync == Group && InRange(cfg.env, WalRecord(1, 0, CHECKPOINT_KIND, []))
    ensures Takes(cfg, FreshWorld(), Open, w1) && Takes(cfg, w1, BeginCheckpoint, w2)
    ensures w2.files != [] && NothingSynced(w2.files)
      && Tail(w2.files).written == [WalRecord(1, 0, CHECKPOINT_KIND, [])]
    ensures w2.manifest == Manifest(0, 0)
  {
    FirstAppend(cfg, WalRecord(1, 0, CHECKPOINT_KIND, []));
    w1 := FreshWorld().(session := Some(Session(false, 0, Idle)));
    w2 := AppendTo(cfg, w1, w1.session.value, CHECKPOINT_KIND, [], Marked(1));
  }

  lemma LoseMarker(cfg: Config, w2: World, r: WalRecord) returns (w3: World, w4: World, w5: World, w6: World)
    requires w2.files != [] && NothingSynced(w2.files) && Tail(w2.files).written == [r]
    requires r.lsn > 0 && r.kind == CHECKPOINT_KIND && w2.manifest == Manifest(0, 0)
    ensures Takes(cfg, w2, Crash, w3) && Takes(cfg, w3, Recover, w4) && Takes(cfg, w4, Crash, w5)
      && Takes(cfg, w5, Open, w6)
    ensures w6.session.Some? && w6.session.value.lastLsn < w6.manifest.checkpointLsn && !SafeRecovery(w3)
  {
    UnsyncedTornToNothing(w2.files);
    AdoptsMarker(w2.files, r);
    w3 := w2.(session := None);
    w4 := w3.(manifest := Refreshed(w3));
    w5 := w4.(files := Worst(w4.files));
    EmptyLog(w5.files);
    w6 := w5.(session := Some(Session(false, MaxLsn(w5.files), Idle)));
    forall q
      ensures !SyncedIn(w3.files, q)
    {
    }
  }

  /**
    In mode "group" a recovery can adopt a marker that was written but never
    synced: begin a checkpoint on a fresh database, lose the process but not the
    marker, recover, then lose the marker too. The next LSN is one the manifest
    covers.
    */
  lemma GroupModeFallsBehind(cfg: Config) returns (w1: World, w2: World, w3: World, w4: World, w5: World, w6: World)
    requires cfg.sync == Group && InRange(cfg.env, WalRecord(1, 0, CHECKPOINT_KIND, []))
    ensures Takes(cfg, FreshWorld(), Open, w1) && Takes(cfg, w1, BeginCheckpoint, w2) && Takes(cfg, w2, Crash, w3)
    ensures Takes(cfg, w3, Recover, w4) && Takes(cfg, w4, Crash, w5) && Takes(cfg, w5, Open, w6)
    ensures !SafeRecovery(w3) && w6.session.Some? && w6.session.value.lastLsn < w6.manifest.checkpointLsn
  {
    w1, w2 := MarkFresh(cfg);
    w3, w4, w5, w6 := LoseMarker(cfg, w2, WalRecord(1, 0, CHECKPOINT_KIND, []));
  }

  lemma AdoptsMarker(files: seq<Segment>, r: WalRecord)
    requires files != [] && Tail(files).written == [r] && r.kind == CHECKPOINT_KIND
    ensures Boundary(files, 0) >= r.lsn
  {
    assert [r][..0] == [];
    BoundaryAboveFloor(files[..|files| - 1], 0);
  }

  /** In mode "off" the very first checkpoint of a fresh database puts the manifest ahead of the durable log. */
  lemma OffModeCheckpointIsUnanchored(cfg: Config, w0: World, w1: World, w2: World, w3: World, w4: World)
    requires cfg.sync == Off && w0 == FreshWorld() && Takes(cfg, w0, Open, w1) && Takes(cfg, w1, BeginCheckpoint, w2)
    requires Takes(cfg, w2, FlushMarker, w3) && Takes(cfg, w3, WriteManifest, w4)
    ensures !Anchored(w4.files, w4.manifest.checkpointLsn)
  {
    FirstAppend(cfg, NextRecord(w1.session.value, CHECKPOINT_KIND, []));
    assert w4.files == w2.files;
    forall r
      ensures !SyncedIn(w4.files, r)
    {
    }
    assert w4.manifest.checkpointLsn == 1;
  }

  // ---------------------------------------------------------------- a roll-over that loses

  /** A tiny log: it rolls at 100 bytes, and a record with no kind and 20 payload bytes takes 48. */
  predicate TinyLog(cfg: Config) {
    cfg.sync == Group && cfg.rollSize == 100 && cfg.env.utf8("") == []
  }

  lemma TinySizes(cfg: Config, a: WalRecord)
    requires TinyLog(cfg) && a.kind == "" && |a.payload| == 20
    ensures |Encoded(cfg.env, a)| == 48
    ensures Size(cfg.env, Segment(1, [], 0)) == 24 && Size(cfg.env, Segment(1, [a], 0)) == 72
  {
    assert [a][1..] == [];
    assert Written(cfg.env, [a]) == Encoded(cfg.env, a) + Written(cfg.env, []);
  }

  lemma TwoRecordsRoll(cfg: Config, a: WalRecord, b: WalRecord)
    requires TinyLog(cfg) && a.kind == b.kind == "" && |a.payload| == |b.payload| == 20
    ensures Appended(cfg, [], false, a) == [Segment(1, [a], 0)]
    ensures Appended(cfg, [Segment(1, [a], 0)], true, b) == [Segment(1, [a], 0), Segment(2, [b], 0)]
  {
    TinySizes(cfg, a);
    TinySizes(cfg, b);
    assert Ensured(cfg, [], false, 48) == [] + [Segment(1, [], 0)];
    WriteLast([], 1, a);
    assert Ensured(cfg, [Segment(1, [a], 0)], true, 48) == [Segment(1, [a], 0)] + [Segment(2, [], 0)];
    WriteLast([Segment(1, [a], 0)], 2, b);
  }

  lemma WriteLast(front: seq<Segment>, index: nat, r: WalRecord)
    ensures WriteTail(front + [Segment(index, [], 0)], r) == front + [Segment(index, [r], 0)]
  {
    assert (front + [Segment(index, [], 0)])[..|front|] == front && [] + [r] == [r];
  }

  /** Two appends on a fresh tiny log, the second across a roll-over. */
  lemma TinyAppends(cfg: Config, p: Bytes) returns (w1: World, w2: World, w3: World)
    requires TinyLog(cfg) && |p| == 20
    ensures Takes(cfg, FreshWorld(), Open, w1) && Takes(cfg, w1, Append("", p), w2) && Takes(cfg, w2, Append("", p), w3)
    ensures w3.files == [Segment(1, [WalRecord(1, 0, "", p)], 0), Segment(2, [WalRecord(2, 1, "", p)], 0)]
    ensures w3.session == Some(Session(true, 2, Idle))
  {
    TwoRecordsRoll(cfg, WalRecord(1, 0, "", p), WalRecord(2, 1, "", p));
    WideEnough();
    w1 := FreshWorld().(session := Some(Session(false, 0, Idle)));
    w2 := AppendTo(cfg, w1, w1.session.value, "", p, Idle);
    w3 := AppendTo(cfg, w2, w2.session.value, "", p, Idle);
  }

  lemma FirstStaysUnsynced(cfg: Config, a: WalRecord, b: WalRecord, w: World)
    requires cfg.sync == Group && w.files == [Segment(1, [a], 0), Segment(2, [b], 0)]
      && w.session == Some(Session(true, 2, Idle)) && a != b
    ensures !LogDurable(FlushTo(cfg, w, w.session.value, Idle).files)
  {
    var files := FlushTo(cfg, w, w.session.value, Idle).files;
    assert files == [Segment(1, [a], 0), Segment(2, [b], 1)];
    assert a in files[0].written;
    assert InLog(files, a) && !SyncedIn(files, a);
  }

  /** In mode "group": append, append across a roll-over, flush, and the log is still not durable. */
  lemma FlushAfterRollOverIsNotEnough(cfg: Config, p: Bytes) returns (w1: World, w2: World, w3: World, w4: World)
    requires TinyLog(cfg) && |p| == 20
    ensures Takes(cfg, FreshWorld(), Open, w1) && Takes(cfg, w1, Append("", p), w2) && Takes(cfg, w2, Append("", p), w3)
    ensures Takes(cfg, w3, Flush, w4) && !LogDurable(w4.files)
  {
    w1, w2, w3 := TinyAppends(cfg, p);
    FirstStaysUnsynced(cfg, WalRecord(1, 0, "", p), WalRecord(2, 1, "", p), w3);
    w4 := FlushTo(cfg, w3, w3.session.value, Idle);
  }

  lemma WideEnough()
    ensures Width(4) > 20 && Width(8) > 20
  {
    assert Width(1) == 256 && Width(2) == 256 * Width(1) && Width(3) == 256 * Width(2) && Width(4) == 256 * Width(3);
    assert Width(5) == 256 * Width(4) && Width(6) == 256 * Width(5) && Width(7) == 256 * Width(6)
        && Width(8) == 256 * Width(7);
  }
}
