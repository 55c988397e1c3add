/** Crash recovery: the replay loop and the manifest refresh (storage/recovery.py). */
module Recovery {
  import opened Results
  import opened WalCodec
  import opened WalLog
  import opened Durability
  import opened WalFiles
  import opened Sublists

  /** A redo handler either returns (true) or raises (false). */
  type Handlers = map<string, WalRecord -> bool>

  datatype Report = Report(replayed: nat, skipped: nat, lastLsn: Lsn, checkpointLsn: Lsn, invocations: map<string, nat>)

  // ---------------------------------------------------------------- what ought to be replayed

  predicate Due(r: WalRecord, checkpointLsn: Lsn) {
    r.lsn > checkpointLsn && r.kind != CHECKPOINT_KIND
  }

  /** The records above the checkpoint that are not markers, in order. */
  function Replayable(log: seq<WalRecord>, checkpointLsn: Lsn): seq<WalRecord> {
    if log == [] then []
    else
      var n := |log| - 1;
      Replayable(log[..n], checkpointLsn) + if Due(log[n], checkpointLsn) then [log[n]] else []
  }

  /** How many records lie at or below the checkpoint. */
  function Covered(log: seq<WalRecord>, checkpointLsn: Lsn): nat {
    if log == [] then 0
    else Covered(log[..|log| - 1], checkpointLsn) + if log[|log| - 1].lsn <= checkpointLsn then 1 else 0
  }

  /** How many markers lie above it. */
  function NewMarkers(log: seq<WalRecord>, checkpointLsn: Lsn): nat {
    if log == [] then 0
    else
      var last := log[|log| - 1];
      NewMarkers(log[..|log| - 1], checkpointLsn) +
      if last.lsn > checkpointLsn && last.kind == CHECKPOINT_KIND then 1 else 0
  }

  function OfKind(records: seq<WalRecord>, kind: string): nat {
    if records == [] then 0
    else OfKind(records[..|records| - 1], kind) + if records[|records| - 1].kind == kind then 1 else 0
  }

  function Counted(invocations: map<string, nat>, kind: string): nat {
    if kind in invocations then invocations[kind] else 0
  }

  /** Those of the records that a handler is registered for. */
  function Dispatched(records: seq<WalRecord>, handlers: Handlers): seq<WalRecord> {
    if records == [] then []
    else
      var last := records[|records| - 1];
      Dispatched(records[..|records| - 1], handlers) + if last.kind in handlers then [last] else []
  }

  predicate Succeeds(handlers: Handlers, r: WalRecord) {
    r.kind in handlers ==> handlers[r.kind](r)
  }

  /** Replayed, skipped and passed markers account for every record. */
  lemma {:induction false} EveryRecordCounted(log: seq<WalRecord>, checkpointLsn: Lsn)
    ensures |Replayable(log, checkpointLsn)| + Covered(log, checkpointLsn) + NewMarkers(log, checkpointLsn) == |log|
  {
    if log != [] {
      EveryRecordCounted(log[..|log| - 1], checkpointLsn);
    }
  }

  lemma {:induction false} InReplayable(log: seq<WalRecord>, checkpointLsn: Lsn, r: WalRecord)
    ensures r in Replayable(log, checkpointLsn) <==> r in log && Due(r, checkpointLsn)
  {
    if log != [] {
      InReplayable(log[..|log| - 1], checkpointLsn, r);
      assert log == log[..|log| - 1] + [log[|log| - 1]];
    }
  }

  lemma {:induction false} ReplayableRises(log: seq<WalRecord>, checkpointLsn: Lsn)
    requires Rising(log)
    ensures Rising(Replayable(log, checkpointLsn))
  {
    if log != [] {
      var n := |log| - 1;
      var front := Replayable(log[..n], checkpointLsn);
      ReplayableRises(log[..n], checkpointLsn);
      forall i | 0 <= i < |front|
        ensures front[i].lsn < log[n].lsn
      {
        InReplayable(log[..n], checkpointLsn, front[i]);
      }
    }
  }

  lemma ReplayableSnoc(front: seq<WalRecord>, r: WalRecord, checkpointLsn: Lsn)
    ensures Replayable(front + [r], checkpointLsn) == Replayable(front, checkpointLsn) +
      if Due(r, checkpointLsn) then [r] else []
  {
    assert (front + [r])[..|front|] == front;
  }

  // ---------------------------------------------------------------- said of the records themselves

  /** The records that are replayed. */
  function ReplayedAbove(checkpointLsn: Lsn): WalRecord -> bool {
    (r: WalRecord) => r.lsn > checkpointLsn && r.kind != "CHECKPOINT"
  }

  /** Those whose handler is called. */
  function CalledAbove(checkpointLsn: Lsn, handlers: Handlers): WalRecord -> bool {
    (r: WalRecord) => r.lsn > checkpointLsn && r.kind != "CHECKPOINT" && r.kind in handlers
  }

  function SkippedBelow(checkpointLsn: Lsn): WalRecord -> bool {
    (r: WalRecord) => r.lsn <= checkpointLsn
  }

  lemma CalledIs(checkpointLsn: Lsn, handlers: Handlers, r: WalRecord)
    ensures CalledAbove(checkpointLsn, handlers)(r) <==> Due(r, checkpointLsn) && r.kind in handlers
  {
  }

  lemma ReplayableEnd(log: seq<WalRecord>, checkpointLsn: Lsn)
    requires log != []
    ensures var n := |log| - 1;
      Replayable(log, checkpointLsn) == if ReplayedAbove(checkpointLsn)(log[n])
        then Replayable(log[..n], checkpointLsn) + [log[n]] else Replayable(log[..n], checkpointLsn)
  {
  }

  lemma DispatchedEnd(front: seq<WalRecord>, r: WalRecord, handlers: Handlers)
    ensures Dispatched(front + [r], handlers)
      == if r.kind in handlers then Dispatched(front, handlers) + [r] else Dispatched(front, handlers)
  {
    assert (front + [r])[..|front|] == front;
  }

  lemma {:induction false} ReplayablePicks(log: seq<WalRecord>, checkpointLsn: Lsn)
    ensures PicksJust(log, ReplayedAbove(checkpointLsn), Replayable(log, checkpointLsn))
  {
    if log == [] {
      PicksNothing(ReplayedAbove(checkpointLsn));
    } else {
      var n := |log| - 1;
      ReplayablePicks(log[..n], checkpointLsn);
      ReplayableEnd(log, checkpointLsn);
      PicksJustTo(log[..n], ReplayedAbove(checkpointLsn), Replayable(log[..n], checkpointLsn), log,
                  Replayable(log, checkpointLsn));
    }
  }

  lemma {:induction false} CalledPicks(log: seq<WalRecord>, checkpointLsn: Lsn, handlers: Handlers)
    ensures PicksJust(log, CalledAbove(checkpointLsn, handlers), Dispatched(Replayable(log, checkpointLsn), handlers))
  {
    if log == [] {
      PicksNothing(CalledAbove(checkpointLsn, handlers));
    } else {
      var n := |log| - 1;
      var front := Replayable(log[..n], checkpointLsn);
      CalledPicks(log[..n], checkpointLsn, handlers);
      ReplayableEnd(log, checkpointLsn);
      DispatchedEnd(front, log[n], handlers);
      CalledIs(checkpointLsn, handlers, log[n]);
      PicksJustTo(log[..n], CalledAbove(checkpointLsn, handlers), Dispatched(front, handlers), log,
                  Dispatched(Replayable(log, checkpointLsn), handlers));
    }
  }

  lemma {:induction false} CoveredPicks(log: seq<WalRecord>, checkpointLsn: Lsn) returns (skipped: seq<WalRecord>)
    ensures PicksJust(log, SkippedBelow(checkpointLsn), skipped) && |skipped| == Covered(log, checkpointLsn)
  {
    if log == [] {
      skipped := [];
      PicksNothing(SkippedBelow(checkpointLsn));
    } else {
      var n := |log| - 1;
      var before := CoveredPicks(log[..n], checkpointLsn);
      skipped := if log[n].lsn <= checkpointLsn then before + [log[n]] else before;
      PicksJustTo(log[..n], SkippedBelow(checkpointLsn), before, log, skipped);
    }
  }

  /** The floor, or the greatest LSN above it among these records. */
  ghost predicate Highest(records: set<WalRecord>, floor: Lsn, m: Lsn) {
    && m >= floor && (forall r :: r in records ==> r.lsn <= m)
    && (m == floor || exists r :: r in records && r.lsn == m)
  }

  ghost function Markers(log: seq<WalRecord>): set<WalRecord> {
    set r | r in log && r.kind == "CHECKPOINT"
  }

  ghost function AllOf(log: seq<WalRecord>): set<WalRecord> {
    set r | r in log
  }

  lemma HighestGrows(records: set<WalRecord>, floor: Lsn, m: Lsn, r: WalRecord)
    requires Highest(records, floor, m)
    ensures Highest(records + {r}, floor, Larger(m, r.lsn))
  {
    assert r in records + {r};
    if m != floor && m >= r.lsn {
      var q :| q in records && q.lsn == m;
      assert q in records + {r};
    }
  }

  lemma {:induction false} BoundaryIsHighest(log: seq<WalRecord>, floor: Lsn)
    ensures Highest(Markers(log), floor, MarkerIn(log, floor))
  {
    if log != [] {
      var n := |log| - 1;
      BoundaryIsHighest(log[..n], floor);
      HighestGrows(Markers(log[..n]), floor, MarkerIn(log[..n], floor), log[n]);
      assert log == log[..n] + [log[n]];
      assert Markers(log) == if log[n].kind == "CHECKPOINT" then Markers(log[..n]) + {log[n]} else Markers(log[..n]);
    }
  }

  lemma {:induction false} LastIsHighest(log: seq<WalRecord>, floor: Lsn)
    ensures Highest(AllOf(log), floor, Larger(floor, MaxIn(log)))
  {
    if log != [] {
      var n := |log| - 1;
      LastIsHighest(log[..n], floor);
      HighestGrows(AllOf(log[..n]), floor, Larger(floor, MaxIn(log[..n])), log[n]);
      assert log == log[..n] + [log[n]];
      assert AllOf(log) == AllOf(log[..n]) + {log[n]};
    }
  }

  /** A complete recovery, said of the records of the log. */
  ghost predicate ReplayedLog(manifest: Manifest, log: seq<WalRecord>, handlers: Handlers, report: Report,
                              calls: seq<WalRecord>) {
    && PicksJust(log, CalledAbove(manifest.checkpointLsn, handlers), calls)
    && (exists due :: PicksJust(log, ReplayedAbove(manifest.checkpointLsn), due) && report.replayed == |due|)
    && (exists old_ :: PicksJust(log, SkippedBelow(manifest.checkpointLsn), old_) && report.skipped == |old_|)
    && Highest(Markers(log), manifest.checkpointLsn, report.checkpointLsn)
    && Highest(AllOf(log), manifest.lastLsn, report.lastLsn)
  }

  lemma RecoveredMeans(manifest: Manifest, log: seq<WalRecord>, handlers: Handlers, report: Report,
                       calls: seq<WalRecord>)
    requires Recovered(manifest, log, handlers, report, calls)
    ensures ReplayedLog(manifest, log, handlers, report, calls)
  {
    CalledPicks(log, manifest.checkpointLsn, handlers);
    ReplayablePicks(log, manifest.checkpointLsn);
    var skipped := CoveredPicks(log, manifest.checkpointLsn);
    EveryRecordCounted(log, manifest.checkpointLsn);
    BoundaryIsHighest(log, manifest.checkpointLsn);
    LastIsHighest(log, manifest.lastLsn);
  }

  /** The handler of record `k` raised after every earlier one succeeded, said of the records of the log. */
  ghost predicate RaisedAt(manifest: Manifest, log: seq<WalRecord>, handlers: Handlers, calls: seq<WalRecord>, k: nat) {
    var called := CalledAbove(manifest.checkpointLsn, handlers);
    && k < |log| && called(log[k]) && !handlers[log[k].kind](log[k])
    && (forall j :: 0 <= j < k && called(log[j]) ==> handlers[log[j].kind](log[j]))
    && PicksJust(log[..k + 1], called, calls)
  }

  lemma StoppedMeans(manifest: Manifest, log: seq<WalRecord>, handlers: Handlers, calls: seq<WalRecord>, k: int)
    requires Stopped(manifest, log, handlers, calls, k)
    ensures RaisedAt(manifest, log, handlers, calls, k)
  {
    CalledPicks(log[..k + 1], manifest.checkpointLsn, handlers);
    forall j | 0 <= j < k && CalledAbove(manifest.checkpointLsn, handlers)(log[j])
      ensures handlers[log[j].kind](log[j])
    {
      InReplayable(log[..k], manifest.checkpointLsn, log[j]);
      assert log[..k][j] == log[j];
    }
  }

  /** Every handler that is called returns. */
  ghost predicate NoneRaises(manifest: Manifest, log: seq<WalRecord>, handlers: Handlers) {
    forall r :: r in log && CalledAbove(manifest.checkpointLsn, handlers)(r) ==> handlers[r.kind](r)
  }

  lemma NoneRaisesIff(manifest: Manifest, log: seq<WalRecord>, handlers: Handlers)
    ensures NoneRaises(manifest, log, handlers)
      <==> forall q :: q in Replayable(log, manifest.checkpointLsn) ==> Succeeds(handlers, q)
  {
    forall q
      ensures q in Replayable(log, manifest.checkpointLsn) <==> q in log && Due(q, manifest.checkpointLsn)
    {
      InReplayable(log, manifest.checkpointLsn, q);
    }
    if NoneRaises(manifest, log, handlers) {
      forall q | q in Replayable(log, manifest.checkpointLsn)
        ensures Succeeds(handlers, q)
      {
        CalledIs(manifest.checkpointLsn, handlers, q);
      }
    }
    if forall q :: q in Replayable(log, manifest.checkpointLsn) ==> Succeeds(handlers, q) {
      forall r | r in log && CalledAbove(manifest.checkpointLsn, handlers)(r)
        ensures handlers[r.kind](r)
      {
        CalledIs(manifest.checkpointLsn, handlers, r);
        assert Succeeds(handlers, r);
      }
    }
  }

  // ---------------------------------------------------------------- the moving boundary

  lemma {:induction false} BoundaryBelow(front: seq<WalRecord>, floor: Lsn, lsn: Lsn)
    requires floor < lsn && forall q :: q in front ==> q.lsn < lsn
    ensures MarkerIn(front, floor) < lsn
  {
    if front != [] {
      var n := |front| - 1;
      assert front[n] in front;
      BoundaryBelow(front[..n], floor, lsn);
    }
  }

  /** On a rising log the moving boundary decides like the original checkpoint. */
  lemma BoundaryDecidesAlike(front: seq<WalRecord>, r: WalRecord, floor: Lsn)
    requires Rising(front + [r])
    ensures r.lsn <= MarkerIn(front, floor) <==> r.lsn <= floor
  {
    MarkerAboveFloor(front, floor);
    if floor < r.lsn {
      forall q | q in front
        ensures q.lsn < r.lsn
      {
        var i :| 0 <= i < |front| && front[i] == q;
        assert (front + [r])[i] == q && (front + [r])[|front|] == r;
      }
      BoundaryBelow(front, floor, r.lsn);
    }
  }

  // ---------------------------------------------------------------- the loop

  datatype Progress = Progress(boundary: Lsn, lastSeen: Lsn, replayed: nat, skipped: nat,
                                 invocations: map<string, nat>, calls: seq<WalRecord>)

  /** The loop's variables after the records of `front`. */
  ghost predicate Replayed(front: seq<WalRecord>, manifest: Manifest, handlers: Handlers, p: Progress) {
    var due := Replayable(front, manifest.checkpointLsn);
    && p.boundary == MarkerIn(front, manifest.checkpointLsn)
    && p.lastSeen == Larger(manifest.lastLsn, MaxIn(front))
    && p.replayed == |due| && p.skipped == Covered(front, manifest.checkpointLsn)
    && (forall kind :: Counted(p.invocations, kind) == OfKind(due, kind))
    && p.calls == Dispatched(due, handlers)
    && (forall r :: r in due ==> Succeeds(handlers, r))
  }

  function Seen(p: Progress, r: WalRecord): Progress {
    p.(lastSeen := Larger(p.lastSeen, r.lsn))
  }

  lemma SkipStep(front: seq<WalRecord>, r: WalRecord, manifest: Manifest, handlers: Handlers, p: Progress)
    requires Replayed(front, manifest, handlers, p) && r.lsn <= manifest.checkpointLsn
    ensures Replayed(front + [r], manifest, handlers, Seen(p, r).(skipped := p.skipped + 1))
  {
    assert (front + [r])[..|front|] == front;
    MarkerAboveFloor(front, manifest.checkpointLsn);
    ReplayableSnoc(front, r, manifest.checkpointLsn);
    assert Replayable(front + [r], manifest.checkpointLsn) == Replayable(front, manifest.checkpointLsn);
  }

  lemma MarkerStep(front: seq<WalRecord>, r: WalRecord, manifest: Manifest, handlers: Handlers, p: Progress)
    requires Replayed(front, manifest, handlers, p) && r.lsn > p.boundary && r.kind == CHECKPOINT_KIND
    ensures Replayed(front + [r], manifest, handlers, Seen(p, r).(boundary := r.lsn))
  {
    assert (front + [r])[..|front|] == front;
    MarkerAboveFloor(front, manifest.checkpointLsn);
    ReplayableSnoc(front, r, manifest.checkpointLsn);
    assert Replayable(front + [r], manifest.checkpointLsn) == Replayable(front, manifest.checkpointLsn);
  }

  function Ran(p: Progress, r: WalRecord, handled: bool): Progress {
    Seen(p, r).(replayed := p.replayed + 1,
                invocations := p.invocations[r.kind := Counted(p.invocations, r.kind) + 1],
                calls := if handled then p.calls + [r] else p.calls)
  }

  lemma DueStep(front: seq<WalRecord>, r: WalRecord, manifest: Manifest, handlers: Handlers, p: Progress)
    requires Replayed(front, manifest, handlers, p) && Due(r, manifest.checkpointLsn) && Succeeds(handlers, r)
    ensures Replayed(front + [r], manifest, handlers, Ran(p, r, r.kind in handlers))
  {
    assert (front + [r])[..|front|] == front;
    var due := Replayable(front, manifest.checkpointLsn);
    ReplayableSnoc(front, r, manifest.checkpointLsn);
    assert (due + [r])[..|due|] == due;
  }

  /** One record: skipped, adopted as the new boundary, or dispatched. */
  method ReplayOne(ghost front: seq<WalRecord>, r: WalRecord, ghost manifest: Manifest, handlers: Handlers, p: Progress)
    returns (ok: bool, p': Progress)
    requires Rising(front + [r]) && Replayed(front, manifest, handlers, p)
    ensures ok <==> !(Due(r, manifest.checkpointLsn) && !Succeeds(handlers, r))
    ensures ok ==> Replayed(front + [r], manifest, handlers, p')
    ensures !ok ==> p'.calls == p.calls + [r] == Dispatched(Replayable(front + [r], manifest.checkpointLsn), handlers)
  {
    BoundaryDecidesAlike(front, r, manifest.checkpointLsn);
    p' := Seen(p, r);
    ok := true;
    if r.lsn <= p.boundary {
      SkipStep(front, r, manifest, handlers, p);
      p' := p'.(skipped := p.skipped + 1);
    } else if r.kind == CHECKPOINT_KIND {
      MarkerStep(front, r, manifest, handlers, p);
      p' := p'.(boundary := r.lsn);
    } else if r.kind in handlers && !handlers[r.kind](r) {
      ok := false;
      p' := p'.(calls := p.calls + [r]);
      FailedCall(front, r, manifest.checkpointLsn, handlers);
    } else {
      DueStep(front, r, manifest, handlers, p);
      p' := Ran(p, r, r.kind in handlers);
    }
  }

  lemma FailedCall(front: seq<WalRecord>, r: WalRecord, checkpointLsn: Lsn, handlers: Handlers)
    requires Due(r, checkpointLsn) && r.kind in handlers
    ensures Dispatched(Replayable(front + [r], checkpointLsn), handlers)
      == Dispatched(Replayable(front, checkpointLsn), handlers) + [r]
  {
    var due := Replayable(front, checkpointLsn);
    ReplayableSnoc(front, r, checkpointLsn);
    assert (due + [r])[..|due|] == due;
  }

  /**
    `recover`. The handlers see exactly the records above the manifest's original
    checkpoint that are not markers, once each and in order; a handler that raises
    stops the replay at its record and leaves the manifest alone.
    */
  method Recover(bundle: Bundle, log: seq<WalRecord>, handlers: Handlers)
    returns (r: Result<Report>, calls: seq<WalRecord>)
    requires Rising(log)
    modifies bundle
    ensures r.Ok? <==> forall q :: q in Replayable(log, old(bundle.manifest).checkpointLsn) ==> Succeeds(handlers, q)
    ensures r.Ok? <==> NoneRaises(old(bundle.manifest), log, handlers)
    ensures r.Ok? ==> ReplayedLog(old(bundle.manifest), log, handlers, r.value, calls)
    ensures r.Err? ==> exists k: nat :: RaisedAt(old(bundle.manifest), log, handlers, calls, k)
    ensures r.Ok? ==> Recovered(old(bundle.manifest), log, handlers, r.value, calls)
    ensures r.Ok? ==> bundle.manifest == Manifest(r.value.lastLsn, r.value.checkpointLsn)
    ensures r.Err? ==> r == Err("CDB-7070") && bundle.manifest == old(bundle.manifest)
    ensures r.Err? ==> exists k :: Stopped(old(bundle.manifest), log, handlers, calls, k)
  {
    ghost var manifest := bundle.manifest;
    NoneRaisesIff(manifest, log, handlers);
    var p := Progress(bundle.manifest.checkpointLsn, bundle.manifest.lastLsn, 0, 0, map[], []);
    for i := 0 to |log|
      invariant bundle.manifest == manifest && Replayed(log[..i], manifest, handlers, p)
    {
      assert log[..i + 1] == log[..i] + [log[i]];
      var ok;
      ok, p := ReplayOne(log[..i], log[i], manifest, handlers, p);
      if !ok {
        InReplayable(log, manifest.checkpointLsn, log[i]);
        assert Stopped(manifest, log, handlers, p.calls, i);
        StoppedMeans(manifest, log, handlers, p.calls, i);
        return Err("CDB-7070"), p.calls;
      }
    }
    assert log[..|log|] == log;
    r, calls := Ok(Report(p.replayed, p.skipped, p.lastSeen, p.boundary, p.invocations)), p.calls;
    EveryRecordCounted(log, manifest.checkpointLsn);
    assert Recovered(manifest, log, handlers, r.value, calls);
    RecoveredMeans(manifest, log, handlers, r.value, calls);
    if p.lastSeen != bundle.manifest.lastLsn || p.boundary != bundle.manifest.checkpointLsn {
      bundle.manifest := Manifest(p.lastSeen, p.boundary);
    }
  }

  /** A complete recovery. */
  ghost predicate Recovered(manifest: Manifest, log: seq<WalRecord>, handlers: Handlers, report: Report,
                            calls: seq<WalRecord>) {
    var due := Replayable(log, manifest.checkpointLsn);
    && calls == Dispatched(due, handlers)
    && report.checkpointLsn == MarkerIn(log, manifest.checkpointLsn)
    && report.lastLsn == Larger(manifest.lastLsn, MaxIn(log))
    && report.replayed == |due|
    && report.replayed + report.skipped + NewMarkers(log, manifest.checkpointLsn) == |log|
    && forall kind :: Counted(report.invocations, kind) == OfKind(due, kind)
  }

  /** The handler of record `k` raised, after those of every earlier record had run. */
  ghost predicate Stopped(manifest: Manifest, log: seq<WalRecord>, handlers: Handlers, calls: seq<WalRecord>, k: int) {
    && 0 <= k < |log| && Due(log[k], manifest.checkpointLsn) && !Succeeds(handlers, log[k])
    && (forall q :: q in Replayable(log[..k], manifest.checkpointLsn) ==> Succeeds(handlers, q))
    && calls == Dispatched(Replayable(log[..k + 1], manifest.checkpointLsn), handlers)
  }
}
