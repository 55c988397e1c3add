/** The log as a directory of segment files (storage/wal.py). */
module WalLog {
  import opened Results
  import opened WalCodec

  // What append, flush, roll-over, truncation and a crash do to it.

  datatype Sync = Off | Group | On
  datatype Config = Config(env: Env, rollSize: nat, sync: Sync)

  /** One file: the records written to it, and how many of them an fsync has covered. */
  datatype Segment = Segment(index: nat, written: seq<WalRecord>, synced: nat)

  function SyncedPart(seg: Segment): seq<WalRecord> {
    if seg.synced <= |seg.written| then seg.written[..seg.synced] else []
  }

  ghost predicate InLog(files: seq<Segment>, r: WalRecord) {
    exists i :: 0 <= i < |files| && r in files[i].written
  }

  ghost predicate SyncedIn(files: seq<Segment>, r: WalRecord) {
    exists i :: 0 <= i < |files| && r in SyncedPart(files[i])
  }

  // ---------------------------------------------------------------- well-formed directories

  predicate Rising(records: seq<WalRecord>) {
    forall i, j :: 0 <= i < j < |records| ==> records[i].lsn < records[j].lsn
  }

  predicate Sane(seg: Segment) {
    seg.synced <= |seg.written| && Rising(seg.written) && forall r :: r in seg.written ==> r.lsn > 0
  }

  /** Segment `a` is older than `b`, in number and in every LSN. */
  predicate Before(a: Segment, b: Segment) {
    a.index < b.index && forall r, q :: r in a.written && q in b.written ==> r.lsn < q.lsn
  }

  predicate WellFormed(files: seq<Segment>) {
    && (forall i :: 0 <= i < |files| ==> Sane(files[i]))
    && (forall i, j :: 0 <= i < j < |files| ==> Before(files[i], files[j]))
  }

  // ---------------------------------------------------------------- operations

  function Size(env: Env, seg: Segment): nat {
    |SegmentBytes(env, seg.written)|
  }

  function Tail(files: seq<Segment>): Segment
    requires files != []
  {
    files[|files| - 1]
  }

  function WithTail(files: seq<Segment>, seg: Segment): seq<Segment>
    requires files != []
  {
    files[|files| - 1 := seg]
  }

  function NextIndex(files: seq<Segment>): nat {
    if files == [] then 1 else Tail(files).index + 1
  }

  /** `_create_new_segment`. */
  function Created(files: seq<Segment>): seq<Segment> {
    files + [Segment(NextIndex(files), [], 0)]
  }

  /** `_resume_or_create`: reopen the newest segment unless it is full. */
  function Resumed(cfg: Config, files: seq<Segment>): seq<Segment> {
    if files != [] && Size(cfg.env, Tail(files)) < cfg.rollSize then files else Created(files)
  }

  /** `_ensure_segment`: the segment that will take `extra` more bytes is the last one. */
  function Ensured(cfg: Config, files: seq<Segment>, open: bool, extra: nat): (out: seq<Segment>)
    ensures out != []
  {
    var ready := if open && files != [] then files else Resumed(cfg, files);
    if Size(cfg.env, Tail(ready)) + extra > cfg.rollSize then Created(ready) else ready
  }

  function SyncTail(files: seq<Segment>): seq<Segment>
    requires files != []
  {
    WithTail(files, Tail(files).(synced := |Tail(files).written|))
  }

  function WriteTail(files: seq<Segment>, r: WalRecord): (out: seq<Segment>)
    requires files != []
    ensures out != []
  {
    WithTail(files, Tail(files).(written := Tail(files).written + [r]))
  }

  /** `append` of an encodable record. */
  function Appended(cfg: Config, files: seq<Segment>, open: bool, r: WalRecord): (out: seq<Segment>)
    ensures out != []
  {
    var written := WriteTail(Ensured(cfg, files, open, |Encoded(cfg.env, r)|), r);
    if cfg.sync == On then SyncTail(written) else written
  }

  function Without(files: seq<Segment>, i: nat): seq<Segment>
    requires i < |files|
  {
    files[..i] + files[i + 1..]
  }

  /** `truncate_before` may delete this closed file: it holds records, the last at or below `lsn`. */
  predicate Covered(seg: Segment, lsn: Lsn) {
    seg.written != [] && seg.written[|seg.written| - 1].lsn <= lsn
  }

  // ---------------------------------------------------------------- said of the files themselves

  /** An empty file, numbered after the last one. */
  function FreshAfter(files: seq<Segment>): (seg: Segment)
    ensures seg == Segment(if files == [] then 1 else files[|files| - 1].index + 1, [], 0)
  {
    Segment(NextIndex(files), [], 0)
  }

  /**
    The last file goes on taking records if it is open, or shorter than the roll size,
    and has room for `extra` more bytes. Otherwise there is a new one after it, and
    one more if a new header leaves no room either and the last file was not in use.
    */
  ghost predicate MadeReady(cfg: Config, before: seq<Segment>, open: bool, extra: nat, after: seq<Segment>) {
    var size := if before == [] then 0 else |SegmentBytes(cfg.env, before[|before| - 1].written)|;
    var inUse := before != [] && (open || size < cfg.rollSize);
    if inUse && size + extra <= cfg.rollSize then after == before
    else if inUse || |SegmentBytes(cfg.env, [])| + extra <= cfg.rollSize then after == before + [FreshAfter(before)]
    else after == before + [FreshAfter(before)] + [FreshAfter(before + [FreshAfter(before)])]
  }

  lemma EnsuredIsReady(cfg: Config, files: seq<Segment>, open: bool, extra: nat)
    ensures MadeReady(cfg, files, open, extra, Ensured(cfg, files, open, extra))
  {
  }

  /** All files but the last are the same. */
  ghost predicate SameButLast(before: seq<Segment>, after: seq<Segment>) {
    |before| == |after| && forall i :: 0 <= i < |before| - 1 ==> after[i] == before[i]
  }

  /** The record stands at the end of the last file, covered by an fsync in mode on. */
  ghost predicate Laid(cfg: Config, ready: seq<Segment>, r: WalRecord, after: seq<Segment>) {
    && ready != [] && SameButLast(ready, after)
    && var a, b := ready[|ready| - 1], after[|after| - 1];
    && b.index == a.index && b.written == a.written + [r]
    && b.synced == if cfg.sync == On then |a.written| + 1 else a.synced
  }

  ghost predicate RecordAdded(cfg: Config, before: seq<Segment>, open: bool, r: WalRecord, after: seq<Segment>) {
    exists ready :: MadeReady(cfg, before, open, |Encoded(cfg.env, r)|, ready) && Laid(cfg, ready, r, after)
  }

  lemma AppendedIsAdded(cfg: Config, files: seq<Segment>, open: bool, r: WalRecord)
    ensures RecordAdded(cfg, files, open, r, Appended(cfg, files, open, r))
  {
    var ready := Ensured(cfg, files, open, |Encoded(cfg.env, r)|);
    EnsuredIsReady(cfg, files, open, |Encoded(cfg.env, r)|);
    assert Laid(cfg, ready, r, Appended(cfg, files, open, r));
  }

  /** Everything in the last file is covered by an fsync, and nothing else has changed. */
  ghost predicate LastSynced(before: seq<Segment>, after: seq<Segment>) {
    && before != [] && SameButLast(before, after)
    && var a, b := before[|before| - 1], after[|after| - 1];
       b.index == a.index && b.written == a.written && b.synced == |a.written|
  }

  // ---------------------------------------------------------------- they keep directories well formed

  lemma CreatedWellFormed(files: seq<Segment>)
    requires WellFormed(files)
    ensures WellFormed(Created(files)) && Created(files) != []
    ensures forall r :: InLog(Created(files), r) <==> InLog(files, r)
    ensures forall r :: SyncedIn(Created(files), r) <==> SyncedIn(files, r)
  {
    var out := Created(files);
    forall i, j | 0 <= i < j < |out|
      ensures Before(out[i], out[j])
    {
      if j == |files| && i < |files| - 1 {
        assert Before(files[i], files[|files| - 1]);
      }
    }
    forall r
      ensures InLog(out, r) <==> InLog(files, r)
      ensures SyncedIn(out, r) <==> SyncedIn(files, r)
    {
      if InLog(files, r) {
        var i :| 0 <= i < |files| && r in files[i].written;
        assert r in out[i].written;
      }
      if SyncedIn(files, r) {
        var i :| 0 <= i < |files| && r in SyncedPart(files[i]);
        assert r in SyncedPart(out[i]);
      }
    }
  }

  lemma EnsuredWellFormed(cfg: Config, files: seq<Segment>, open: bool, extra: nat)
    requires WellFormed(files)
    ensures WellFormed(Ensured(cfg, files, open, extra))
    ensures forall r :: InLog(Ensured(cfg, files, open, extra), r) <==> InLog(files, r)
    ensures forall r :: SyncedIn(Ensured(cfg, files, open, extra), r) <==> SyncedIn(files, r)
  {
    CreatedWellFormed(files);
    var ready := if open && files != [] then files else Resumed(cfg, files);
    CreatedWellFormed(ready);
  }

  /** Replacing the last segment by one whose records are all newer than the others'. */
  lemma WithTailWellFormed(files: seq<Segment>, seg: Segment)
    requires WellFormed(files) && files != [] && Sane(seg) && seg.index == Tail(files).index
    requires forall i :: 0 <= i < |files| - 1 ==> Before(files[i], seg)
    ensures WellFormed(WithTail(files, seg))
  {
    var out := WithTail(files, seg);
    forall i, j | 0 <= i < j < |out|
      ensures Before(out[i], out[j])
    {
      assert out[i] == files[i];
    }
  }

  lemma WithTailMembers(files: seq<Segment>, seg: Segment, r: WalRecord)
    requires files != []
    ensures InLog(WithTail(files, seg), r) <==> InLog(files[..|files| - 1], r) || r in seg.written
    ensures SyncedIn(WithTail(files, seg), r) <==> SyncedIn(files[..|files| - 1], r) || r in SyncedPart(seg)
    ensures InLog(files, r) <==> InLog(files[..|files| - 1], r) || r in Tail(files).written
    ensures SyncedIn(files, r) <==> SyncedIn(files[..|files| - 1], r) || r in SyncedPart(Tail(files))
  {
    SplitLast(WithTail(files, seg), r);
    SplitLast(files, r);
    assert WithTail(files, seg)[..|files| - 1] == files[..|files| - 1];
  }

  lemma SplitLast(files: seq<Segment>, r: WalRecord)
    requires files != []
    ensures InLog(files, r) <==> InLog(files[..|files| - 1], r) || r in Tail(files).written
    ensures SyncedIn(files, r) <==> SyncedIn(files[..|files| - 1], r) || r in SyncedPart(Tail(files))
  {
    SplitLastWritten(files, r);
    SplitLastSynced(files, r);
  }

  lemma SplitLastWritten(files: seq<Segment>, r: WalRecord)
    requires files != []
    ensures InLog(files, r) <==> InLog(files[..|files| - 1], r) || r in Tail(files).written
  {
    var init := files[..|files| - 1];
    if InLog(init, r) {
      var i :| 0 <= i < |init| && r in init[i].written;
      assert r in files[i].written;
    }
    if InLog(files, r) {
      var i :| 0 <= i < |files| && r in files[i].written;
      assert i < |init| ==> r in init[i].written;
    }
  }

  lemma SplitLastSynced(files: seq<Segment>, r: WalRecord)
    requires files != []
    ensures SyncedIn(files, r) <==> SyncedIn(files[..|files| - 1], r) || r in SyncedPart(Tail(files))
  {
    var init := files[..|files| - 1];
    if SyncedIn(init, r) {
      var i :| 0 <= i < |init| && r in SyncedPart(init[i]);
      assert r in SyncedPart(files[i]);
    }
    if SyncedIn(files, r) {
      var i :| 0 <= i < |files| && r in SyncedPart(files[i]);
      assert i < |init| ==> r in SyncedPart(init[i]);
    }
  }

  lemma WriteTailKeeps(files: seq<Segment>, r: WalRecord)
    requires WellFormed(files) && files != [] && r.lsn > 0
    requires forall q :: InLog(files, q) ==> q.lsn < r.lsn
    ensures WellFormed(WriteTail(files, r))
    ensures forall q :: InLog(WriteTail(files, r), q) <==> InLog(files, q) || q == r
    ensures forall q :: SyncedIn(WriteTail(files, r), q) <==> SyncedIn(files, q)
  {
    var tail := Tail(files);
    var seg := tail.(written := tail.written + [r]);
    forall q | q in tail.written
      ensures q.lsn < r.lsn
    {
      assert InLog(files, q);
    }
    forall i | 0 <= i < |files| - 1
      ensures Before(files[i], seg)
    {
      assert Before(files[i], tail);
      forall q | q in files[i].written
        ensures q.lsn < r.lsn
      {
        assert InLog(files, q);
      }
    }
    WithTailWellFormed(files, seg);
    assert SyncedPart(seg) == SyncedPart(tail);
    forall q
      ensures InLog(WriteTail(files, r), q) <==> InLog(files, q) || q == r
      ensures SyncedIn(WriteTail(files, r), q) <==> SyncedIn(files, q)
    {
      WithTailMembers(files, seg, q);
    }
  }

  lemma SyncTailKeeps(files: seq<Segment>)
    requires WellFormed(files) && files != []
    ensures WellFormed(SyncTail(files))
    ensures forall q :: InLog(SyncTail(files), q) <==> InLog(files, q)
    ensures forall q :: SyncedIn(SyncTail(files), q) <==> SyncedIn(files, q) || q in Tail(files).written
  {
    var tail := Tail(files);
    var seg := tail.(synced := |tail.written|);
    assert seg.written[..seg.synced] == tail.written;
    forall i | 0 <= i < |files| - 1
      ensures Before(files[i], seg)
    {
      assert Before(files[i], tail);
    }
    WithTailWellFormed(files, seg);
    forall q
      ensures InLog(SyncTail(files), q) <==> InLog(files, q)
      ensures SyncedIn(SyncTail(files), q) <==> SyncedIn(files, q) || q in Tail(files).written
    {
      WithTailMembers(files, seg, q);
    }
  }

  lemma AppendedKeeps(cfg: Config, files: seq<Segment>, open: bool, r: WalRecord)
    requires WellFormed(files) && r.lsn > 0
    requires forall q :: InLog(files, q) ==> q.lsn < r.lsn
    ensures WellFormed(Appended(cfg, files, open, r)) && r in Tail(Appended(cfg, files, open, r)).written
    ensures forall q :: InLog(Appended(cfg, files, open, r), q) <==> InLog(files, q) || q == r
    ensures forall q :: SyncedIn(files, q) ==> SyncedIn(Appended(cfg, files, open, r), q)
  {
    var ready := Ensured(cfg, files, open, |Encoded(cfg.env, r)|);
    EnsuredWellFormed(cfg, files, open, |Encoded(cfg.env, r)|);
    WriteTailKeeps(ready, r);
    SyncTailKeeps(WriteTail(ready, r));
  }

  lemma WithoutWellFormed(files: seq<Segment>, i: nat)
    requires WellFormed(files) && i < |files|
    ensures WellFormed(Without(files, i))
  {
    var out := Without(files, i);
    forall a, b | 0 <= a < b < |out|
      ensures Before(out[a], out[b])
    {
      assert out[a] == files[if a < i then a else a + 1] && out[b] == files[if b < i then b else b + 1];
    }
  }

  lemma WithoutMembers(files: seq<Segment>, i: nat, q: WalRecord)
    requires i < |files|
    ensures InLog(Without(files, i), q) ==> InLog(files, q)
    ensures InLog(files, q) && q !in files[i].written ==> InLog(Without(files, i), q)
  {
    var out := Without(files, i);
    if InLog(out, q) {
      var k :| 0 <= k < |out| && q in out[k].written;
      assert q in files[if k < i then k else k + 1].written;
    }
    if InLog(files, q) && q !in files[i].written {
      var k :| 0 <= k < |files| && q in files[k].written;
      assert q in out[if k < i then k else k - 1].written;
    }
  }

  lemma WithoutSynced(files: seq<Segment>, i: nat, q: WalRecord)
    requires i < |files| && SyncedIn(files, q) && q !in SyncedPart(files[i])
    ensures SyncedIn(Without(files, i), q)
  {
    var out := Without(files, i);
    var k :| 0 <= k < |files| && q in SyncedPart(files[k]);
    var j := if k < i then k else k - 1;
    assert k != i && out[j] == files[k];
  }

  /** Deleting a file loses only what that file held. */
  lemma WithoutKeeps(files: seq<Segment>, i: nat)
    requires WellFormed(files) && i < |files|
    ensures WellFormed(Without(files, i))
    ensures forall q :: InLog(Without(files, i), q) ==> InLog(files, q)
    ensures forall q :: InLog(files, q) && q !in files[i].written ==> InLog(Without(files, i), q)
    ensures forall q :: SyncedIn(files, q) && q !in files[i].written ==> SyncedIn(Without(files, i), q)
  {
    WithoutWellFormed(files, i);
    forall q
      ensures InLog(Without(files, i), q) ==> InLog(files, q)
      ensures InLog(files, q) && q !in files[i].written ==> InLog(Without(files, i), q)
    {
      WithoutMembers(files, i, q);
    }
    forall q | SyncedIn(files, q) && q !in files[i].written
      ensures SyncedIn(Without(files, i), q)
    {
      WithoutSynced(files, i, q);
    }
  }

  lemma CoveredIsBelow(files: seq<Segment>, i: nat, lsn: Lsn)
    requires WellFormed(files) && i < |files| && Covered(files[i], lsn)
    ensures forall q :: q in files[i].written ==> q.lsn <= lsn
  {
    assert Sane(files[i]);
  }

  // ---------------------------------------------------------------- crashes

  /** What a crash may leave of one file: at least its synced part, at most what was written. */
  predicate TornTo(a: Segment, b: Segment) {
    b.index == a.index && b.synced == a.synced && SyncedPart(a) <= b.written <= a.written
  }

  predicate Torn(files: seq<Segment>, out: seq<Segment>) {
    |out| == |files| && forall i :: 0 <= i < |files| ==> TornTo(files[i], out[i])
  }

  /** Cutting a segment file anywhere past its synced bytes is such a crash, as far as a reader can tell. */
  lemma CutIsTorn(env: Env, seg: Segment, cut: nat, n: nat)
    requires Sane(seg) && WhollyInside(env, seg.written, cut, n)
    requires |Written(env, seg.written[..seg.synced])| <= cut
    ensures TornTo(seg, seg.(written := seg.written[..n]))
  {
    if n < seg.synced {
      LongerIsCut(env, seg.written, cut, n, seg.synced);
    }
  }

  lemma TornKeeps(files: seq<Segment>, out: seq<Segment>)
    requires WellFormed(files) && Torn(files, out)
    ensures WellFormed(out)
    ensures forall q :: InLog(out, q) ==> InLog(files, q)
    ensures forall q :: SyncedIn(files, q) <==> SyncedIn(out, q)
  {
    forall i | 0 <= i < |out|
      ensures Sane(out[i]) && SyncedPart(out[i]) == SyncedPart(files[i])
      ensures forall q :: q in out[i].written ==> q in files[i].written
    {
      TornOne(files[i], out[i]);
    }
    forall i, j | 0 <= i < j < |out|
      ensures Before(out[i], out[j])
    {
      assert Before(files[i], files[j]);
    }
  }

  lemma TornOne(a: Segment, b: Segment)
    requires Sane(a) && TornTo(a, b)
    ensures Sane(b) && SyncedPart(b) == SyncedPart(a)
    ensures forall q :: q in b.written ==> q in a.written
  {
    assert forall i :: 0 <= i < |b.written| ==> b.written[i] == a.written[i];
    assert |SyncedPart(a)| == a.synced <= |b.written|;
  }
}
