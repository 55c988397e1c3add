/** Opening the log after a crash that may cut any file at any byte (storage/wal.py). */
module HeaderLoss {
  import opened Results
  import opened WalCodec
  import opened WalLog
  import opened Durability
  import opened SyncModes

  // A new segment's header is written without an fsync; it is safe from a crash once a record of the segment is synced.

  // ---------------------------------------------------------------- crashes at any byte

  /** How many bytes of the file no crash can take. */
  function SyncedBytes(env: Env, seg: Segment): nat {
    if seg.synced == 0 then 0 else HEADER_SIZE + |Written(env, SyncedPart(seg))|
  }

  /** What a crash may leave of the file. */
  ghost predicate CutFrom(env: Env, seg: Segment, data: Bytes) {
    SyncedBytes(env, seg) <= |data| && data <= SegmentBytes(env, seg.written)
  }

  ghost predicate CutAll(env: Env, files: seq<Segment>, images: seq<Bytes>) {
    |images| == |files| && forall i :: 0 <= i < |files| ==> CutFrom(env, files[i], images[i])
  }

  ghost predicate Encodable(env: Env, files: seq<Segment>) {
    forall i :: 0 <= i < |files| ==> AllInRange(env, files[i].written)
  }

  predicate AllHeaded(images: seq<Bytes>) {
    forall i :: 0 <= i < |images| ==> |images[i]| >= HEADER_SIZE
  }

  // ---------------------------------------------------------------- the scan of `Wal.__init__`

  function ReadSegment(env: Env, data: Bytes): (seq<WalRecord>, Option<string>) {
    if |data| < HEADER_SIZE || data[..8] != MAGIC then ([], Some("CDB-7053")) else Scan(env, data, HEADER_SIZE)
  }

  /** The scan after one more file. */
  function Continued(env: Env, before: Result<Lsn>, data: Bytes): Result<Lsn> {
    if before.Err? then before
    else
      var (records, error) := ReadSegment(env, data);
      if error.Some? then Err(error.value) else Ok(Larger(before.value, MaxIn(records)))
  }

  /** The largest LSN of all records, or the error of the first file that has one. */
  function ScanLog(env: Env, images: seq<Bytes>): Result<Lsn> {
    if images == [] then Ok(0) else Continued(env, ScanLog(env, images[..|images| - 1]), images[|images| - 1])
  }

  method Latest(records: seq<WalRecord>, floor: Lsn) returns (m: Lsn)
    ensures m == Larger(floor, MaxIn(records))
  {
    m := floor;
    for i := 0 to |records|
      invariant m == Larger(floor, MaxIn(records[..i]))
    {
      assert records[..i + 1][..i] == records[..i];
      m := Larger(m, records[i].lsn);
    }
    assert records[..|records|] == records;
  }

  lemma {:induction false} ErrorEndsScan(env: Env, images: seq<Bytes>, i: nat)
    requires i <= |images| && ScanLog(env, images[..i]).Err?
    ensures ScanLog(env, images) == ScanLog(env, images[..i])
  {
    if i < |images| {
      var front := images[..|images| - 1];
      assert front[..i] == images[..i];
      ErrorEndsScan(env, front, i);
    } else {
      assert images[..i] == images;
    }
  }

  lemma ScanSnoc(env: Env, images: seq<Bytes>, i: nat)
    requires i < |images|
    ensures ScanLog(env, images[..i + 1]) == Continued(env, ScanLog(env, images[..i]), images[i])
  {
    assert images[..i + 1][..i] == images[..i];
  }

  method ScanAll(env: Env, images: seq<Bytes>) returns (r: Result<Lsn>)
    ensures r == ScanLog(env, images)
  {
    var last := 0;
    for i := 0 to |images|
      invariant ScanLog(env, images[..i]) == Ok(last)
    {
      ScanSnoc(env, images, i);
      var records, error := IterSegment(env, images[i]);
      if error.Some? {
        ErrorEndsScan(env, images, i + 1);
        return Err(error.value);
      }
      last := Latest(records, last);
    }
    assert images[..|images|] == images;
    r := Ok(last);
  }

  // ---------------------------------------------------------------- the scan after a crash

  /** A file that has its header reads as a record-level cut of its segment. */
  lemma HeadedReads(env: Env, seg: Segment, data: Bytes) returns (torn: Segment)
    requires Faithful(env) && AllInRange(env, seg.written) && Sane(seg) && CutFrom(env, seg, data)
      && |data| >= HEADER_SIZE
    ensures TornTo(seg, torn) && ReadSegment(env, data) == (torn.written, None)
  {
    var n := CutReads(env, seg.written, data);
    assert seg.synced == 0 ==> Written(env, SyncedPart(seg)) == [];
    CutIsTorn(env, seg, |data| - HEADER_SIZE, n);
    torn := seg.(written := seg.written[..n]);
  }

  /** What a crash leaves of a file of a sound log. */
  ghost predicate Left(env: Env, seg: Segment, data: Bytes) {
    Sane(seg) && AllInRange(env, seg.written) && CutFrom(env, seg, data)
  }

  ghost predicate AllLeft(env: Env, files: seq<Segment>, images: seq<Bytes>) {
    && |images| == |files|
    && (files != [] ==>
          Left(env, files[|files| - 1], images[|files| - 1])
              && AllLeft(env, files[..|files| - 1], images[..|files| - 1]))
  }

  lemma {:induction false} EachLeft(env: Env, files: seq<Segment>, images: seq<Bytes>)
    requires |images| == |files| && forall i :: 0 <= i < |files| ==> Left(env, files[i], images[i])
    ensures AllLeft(env, files, images)
  {
    if files != [] {
      EachLeft(env, files[..|files| - 1], images[..|files| - 1]);
    }
  }

  lemma LeftAt(env: Env, files: seq<Segment>, images: seq<Bytes>, i: nat)
    requires WellFormed(files) && Encodable(env, files) && CutAll(env, files, images) && i < |files|
    ensures Left(env, files[i], images[i])
  {
    assert CutFrom(env, files[i], images[i]) && Sane(files[i]);
  }

  lemma {:induction false} LeftReads(env: Env, files: seq<Segment>, images: seq<Bytes>) returns (out: seq<Segment>)
    requires Faithful(env) && AllLeft(env, files, images)
    ensures ScanLog(env, images) == if AllHeaded(images) then Ok(MaxLsn(out)) else Err("CDB-7053")
    ensures AllHeaded(images) ==> Torn(files, out)
    decreases |files|
  {
    out := [];
    if files != [] {
      var n := |files| - 1;
      out := LeftReads(env, files[..n], images[..n]);
      if |images[n]| >= HEADER_SIZE {
        var torn := HeadedReads(env, files[n], images[n]);
        TornSnoc(files, out, torn, AllHeaded(images[..n]));
        out := out + [torn];
      }
      HeadedSnoc(images);
    }
  }

  /**
    After a crash the scan succeeds if and only if every file has kept its
    header, and then it reads a record-level crash of the log.
    */
  lemma ReopensIffHeaded(env: Env, files: seq<Segment>, images: seq<Bytes>) returns (out: seq<Segment>)
    requires Faithful(env) && WellFormed(files) && Encodable(env, files) && CutAll(env, files, images)
    ensures ScanLog(env, images) == if AllHeaded(images) then Ok(MaxLsn(out)) else Err("CDB-7053")
    ensures AllHeaded(images) ==> Torn(files, out)
  {
    forall i | 0 <= i < |files|
      ensures Left(env, files[i], images[i])
    {
      LeftAt(env, files, images, i);
    }
    EachLeft(env, files, images);
    out := LeftReads(env, files, images);
  }

  lemma HeadedSnoc(images: seq<Bytes>)
    requires images != []
    ensures AllHeaded(images) <==> AllHeaded(images[..|images| - 1]) && |images[|images| - 1]| >= HEADER_SIZE
  {
  }

  lemma TornSnoc(files: seq<Segment>, out: seq<Segment>, torn: Segment, headed: bool)
    requires files != [] && TornTo(files[|files| - 1], torn) && (headed ==> Torn(files[..|files| - 1], out))
    ensures headed ==> Torn(files, out + [torn])
    ensures MaxLsn(out + [torn]) == Larger(MaxLsn(out), MaxIn(torn.written))
  {
    assert (out + [torn])[..|out|] == out;
  }

  // ---------------------------------------------------------------- when it cannot happen

  lemma WholeIsCut(env: Env, seg: Segment)
    requires Sane(seg)
    ensures CutFrom(env, seg, SegmentBytes(env, seg.written))
  {
    WrittenGrows(env, seg.written, seg.synced);
  }

  ghost predicate OpensAfterEveryCrash(env: Env, files: seq<Segment>) {
    forall images :: CutAll(env, files, images) ==> AllHeaded(images)
  }

  /** No crash takes a header if and only if every file has a synced record. */
  lemma OpensIffEveryFileSynced(env: Env, files: seq<Segment>)
    requires WellFormed(files)
    ensures OpensAfterEveryCrash(env, files) <==> forall i :: 0 <= i < |files| ==> files[i].synced > 0
  {
    if i :| 0 <= i < |files| && files[i].synced == 0 {
      var images := Headless(env, files, i);
      assert |images[i]| < HEADER_SIZE;
    }
    if forall i :: 0 <= i < |files| ==> files[i].synced > 0 {
      forall images | CutAll(env, files, images)
        ensures AllHeaded(images)
      {
        forall i | 0 <= i < |images|
          ensures |images[i]| >= HEADER_SIZE
        {
          assert CutFrom(env, files[i], images[i]);
        }
      }
    }
  }

  /** A crash that empties file `i` and leaves the others whole. */
  lemma Headless(env: Env, files: seq<Segment>, i: nat) returns (images: seq<Bytes>)
    requires WellFormed(files) && i < |files| && files[i].synced == 0
    ensures CutAll(env, files, images) && images[i] == []
  {
    images := seq(|files|, j requires 0 <= j < |files| => if j == i then [] else SegmentBytes(env, files[j].written));
    forall j | 0 <= j < |files|
      ensures CutFrom(env, files[j], images[j])
    {
      WholeIsCut(env, files[j]);
    }
  }

  /** In mode "group", the first append of a fresh database can leave a directory that no longer opens. */
  lemma FirstAppendMayNotReopen(cfg: Config, kind: string, payload: Bytes) returns (w1: World, w2: World)
    requires cfg.sync == Group && InRange(cfg.env, WalRecord(1, 0, kind, payload))
    ensures Takes(cfg, FreshWorld(), Open, w1) && Takes(cfg, w1, Append(kind, payload), w2)
    ensures !OpensAfterEveryCrash(cfg.env, w2.files)
  {
    w1 := FreshWorld().(session := Some(Session(false, 0, Idle)));
    w2 := AppendTo(cfg, w1, w1.session.value, kind, payload, Idle);
    FirstAppend(cfg, WalRecord(1, 0, kind, payload));
    AppendedKeeps(cfg, [], false, WalRecord(1, 0, kind, payload));
    assert w2.files[0].synced == 0;
    OpensIffEveryFileSynced(cfg.env, w2.files);
  }

  /** In mode "on" too, if a record does not fit a fresh segment: that one stays behind without a record. */
  lemma OversizedRecordMayNotReopen(cfg: Config, kind: string, payload: Bytes) returns (w1: World, w2: World)
    requires cfg.sync == On && InRange(cfg.env, WalRecord(1, 0, kind, payload))
    requires HEADER_SIZE + |Encoded(cfg.env, WalRecord(1, 0, kind, payload))| > cfg.rollSize
    ensures Takes(cfg, FreshWorld(), Open, w1) && Takes(cfg, w1, Append(kind, payload), w2)
    ensures !OpensAfterEveryCrash(cfg.env, w2.files)
  {
    w1 := FreshWorld().(session := Some(Session(false, 0, Idle)));
    w2 := AppendTo(cfg, w1, w1.session.value, kind, payload, Idle);
    AppendedKeeps(cfg, [], false, WalRecord(1, 0, kind, payload));
    assert w2.files[0].synced == 0;
    OpensIffEveryFileSynced(cfg.env, w2.files);
  }
}
