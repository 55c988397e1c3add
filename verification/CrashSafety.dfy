/** The durability protocol and recovery together: what a crash at any point of any run leaves to be replayed. */
module CrashSafety {
  import opened Results
  import opened WalCodec
  import opened WalLog
  import opened Durability
  import opened Recovery
  import opened Sublists

  /** All records in segment order, as `iter_all_records` yields them. */
  function Log(files: seq<Segment>): seq<WalRecord> {
    if files == [] then [] else Log(files[..|files| - 1]) + Tail(files).written
  }

  lemma {:induction false} InLogIsListed(files: seq<Segment>, r: WalRecord)
    ensures r in Log(files) <==> InLog(files, r)
  {
    if files != [] {
      InLogIsListed(files[..|files| - 1], r);
      SplitLast(files, r);
    }
  }

  lemma {:induction false} LogRises(files: seq<Segment>)
    requires WellFormed(files)
    ensures Rising(Log(files))
  {
    if files != [] {
      var n := |files| - 1;
      var front, tail := Log(files[..n]), files[n].written;
      LogRises(files[..n]);
      assert Sane(files[n]);
      forall r, q | r in front && q in tail
        ensures r.lsn < q.lsn
      {
        InLogIsListed(files[..n], r);
        var i :| 0 <= i < n && r in files[..n][i].written;
        assert Before(files[i], files[n]);
      }
    }
  }

  lemma {:induction false} MarkerInConcat(a: seq<WalRecord>, b: seq<WalRecord>, floor: Lsn)
    ensures MarkerIn(a + b, floor) == MarkerIn(b, MarkerIn(a, floor))
  {
    if b == [] {
      assert a + b == a;
    } else {
      MarkerInConcat(a, b[..|b| - 1], floor);
      assert (a + b)[..|a + b| - 1] == a + b[..|b| - 1];
    }
  }

  lemma {:induction false} MaxInConcat(a: seq<WalRecord>, b: seq<WalRecord>)
    ensures MaxIn(a + b) == Larger(MaxIn(a), MaxIn(b))
  {
    if b == [] {
      assert a + b == a;
    } else {
      MaxInConcat(a, b[..|b| - 1]);
      assert (a + b)[..|a + b| - 1] == a + b[..|b| - 1];
    }
  }

  lemma {:induction false} DirectoryIsLog(files: seq<Segment>, floor: Lsn)
    ensures Boundary(files, floor) == MarkerIn(Log(files), floor) && MaxLsn(files) == MaxIn(Log(files))
  {
    if files != [] {
      DirectoryIsLog(files[..|files| - 1], floor);
      MarkerInConcat(Log(files[..|files| - 1]), Tail(files).written, floor);
      MaxInConcat(Log(files[..|files| - 1]), Tail(files).written);
    }
  }

  /** What recovery writes to the manifest is the protocol's recovery step. */
  lemma RecoveryIsTheStep(w: World, handlers: Handlers, report: Report, calls: seq<WalRecord>)
    requires Recovered(w.manifest, Log(w.files), handlers, report, calls)
    ensures Manifest(report.lastLsn, report.checkpointLsn) == Refreshed(w)
  {
    DirectoryIsLog(w.files, w.manifest.checkpointLsn);
  }

  /**
    Reopening at any point of any run: the log rises, and every record flushed by
    then, unless a marker or covered by the checkpoint, is replayed exactly once.
    */
  lemma FlushedRecordsAreReplayed(cfg: Config, worlds: seq<World>, actions: seq<Action>, m: nat, n: nat, r: WalRecord)
    requires cfg.sync != Off && Run(cfg, worlds, actions) && m <= n < |worlds| && r in worlds[m].flushed
    requires r.lsn > worlds[n].manifest.checkpointLsn && r.kind != "CHECKPOINT"
    ensures Rising(Log(worlds[n].files))
    ensures var due := Replayable(Log(worlds[n].files), worlds[n].manifest.checkpointLsn);
      && Rising(due) && r in due
      && PicksJust(Log(worlds[n].files), ReplayedAbove(worlds[n].manifest.checkpointLsn), due)
  {
    var files, floor := worlds[n].files, worlds[n].manifest.checkpointLsn;
    RunInv(cfg, worlds, actions, n);
    FlushedRecordsSurvive(cfg, worlds, actions, m, n, r);
    LogRises(files);
    ReplayableRises(Log(files), floor);
    InLogIsListed(files, r);
    InReplayable(Log(files), floor, r);
    ReplayablePicks(Log(files), floor);
  }
}
