/** The bytes of a record and of a header, and what a reader does with damaged ones (storage/wal.py). */
module WalDamage {
  import opened Results
  import opened WalCodec

  // ---------------------------------------------------------------- numbers in bytes

  /** The 4-byte little-endian number at `at`. */
  function Number4(b: Bytes, at: nat): nat
    requires at + 4 <= |b|
  {
    var w: nat, x: nat, y: nat, z: nat := b[at], b[at + 1], b[at + 2], b[at + 3];
    w + 256 * x + 65536 * y + 16777216 * z
  }

  /** The 8-byte little-endian number at `at`. */
  function Number8(b: Bytes, at: nat): nat
    requires at + 8 <= |b|
  {
    Number4(b, at) + 4294967296 * Number4(b, at + 4)
  }

  lemma Unle4(b: Bytes)
    requires |b| == 4
    ensures Unle(b) == Number4(b, 0)
  {
    assert Unle(b) == b[0] + 256 * Unle(b[1..]);
    assert Unle(b[1..]) == b[1] + 256 * Unle(b[1..][1..]);
    assert b[1..][1..] == b[2..];
    assert Unle(b[2..]) == b[2] + 256 * Unle(b[2..][1..]);
    assert b[2..][1..] == b[3..];
    assert Unle(b[3..]) == b[3] + 256 * Unle(b[3..][1..]);
    assert b[3..][1..] == [];
  }

  lemma {:induction false} UnleConcat(a: Bytes, b: Bytes)
    ensures Unle(a + b) == Unle(a) + Width(|a|) * Unle(b)
  {
    if a == [] {
      assert a + b == b;
    } else {
      UnleConcat(a[1..], b);
      assert (a + b)[1..] == a[1..] + b;
      WidthTimes(|a|, Unle(b));
    }
  }

  lemma WidthTimes(k: nat, n: nat)
    requires k > 0
    ensures Width(k) * n == 256 * (Width(k - 1) * n)
  {
  }

  lemma WidthIs()
    ensures Width(4) == 4294967296 && Width(8) == 18446744073709551616
  {
    assert Width(1) == 256 && Width(2) == 65536 && Width(3) == 16777216;
    assert Width(5) == 256 * Width(4) && Width(6) == 256 * Width(5) && Width(7) == 256 * Width(6);
  }

  lemma NumberAt4(b: Bytes, at: nat)
    requires at + 4 <= |b|
    ensures Unle(b[at..at + 4]) == Number4(b, at)
  {
    Unle4(b[at..at + 4]);
  }

  lemma NumberAt8(b: Bytes, at: nat)
    requires at + 8 <= |b|
    ensures Unle(b[at..at + 8]) == Number8(b, at)
  {
    NumberAt4(b, at);
    NumberAt4(b, at + 4);
    WidthIs();
    UnleConcat(b[at..at + 4], b[at + 4..at + 8]);
    assert b[at..at + 8] == b[at..at + 4] + b[at + 4..at + 8];
  }

  // ---------------------------------------------------------------- one frame

  /** A whole record frame with `k` bytes of kind and `p` of payload, as its own length fields say. */
  ghost predicate IsFrame(b: Bytes, offset: nat, k: nat, p: nat) {
    && offset + 28 + k + p <= |b|
    && Number4(b, offset + 16) == k && Number4(b, offset + 20 + k) == p
  }

  /** Its last four bytes are the checksum of all the others. */
  ghost predicate Intact(env: Env, b: Bytes, offset: nat, k: nat, p: nat)
    requires offset + 28 + k + p <= |b|
  {
    Number4(b, offset + 24 + k + p) == env.checksum(b[offset..offset + 24 + k + p]) % 4294967296
  }

  lemma ReadPayloadIs(env: Env, b: Bytes, offset: nat, k: nat, p: nat, lsn: Lsn, prevLsn: Lsn, kind: string)
    requires IsFrame(b, offset, k, p)
    ensures ReadPayload(env, b, offset, lsn, prevLsn, kind, offset + 20 + k) ==
      if Intact(env, b, offset, k, p)
      then Got(WalRecord(lsn, prevLsn, kind, b[offset + 24 + k..offset + 24 + k + p]), offset + 28 + k + p)
      else Fault("CDB-7052")
  {
    WidthIs();
    NumberAt4(b, offset + 20 + k);
    NumberAt4(b, offset + 24 + k + p);
  }

  /** What a whole frame reads as: its fields if the checksum fits, else CDB-7052. */
  lemma ReadWhole(env: Env, b: Bytes, offset: nat, k: nat, p: nat)
    requires IsFrame(b, offset, k, p)
    ensures var kind := env.parse(b[offset + 20..offset + 20 + k]);
      ReadRecord(env, b, offset) ==
      if kind == None then Fault("UnicodeDecodeError")
      else if !Intact(env, b, offset, k, p) then Fault("CDB-7052")
      else Got(WalRecord(Number8(b, offset), Number8(b, offset + 8), kind.value,
                         b[offset + 24 + k..offset + 24 + k + p]), offset + 28 + k + p)
  {
    NumberAt8(b, offset);
    NumberAt8(b, offset + 8);
    NumberAt4(b, offset + 16);
    var kind := env.parse(b[offset + 20..offset + 20 + k]);
    if kind.Some? {
      ReadPayloadIs(env, b, offset, k, p, Number8(b, offset), Number8(b, offset + 8), kind.value);
    }
  }

  /** A record is only ever read from a whole frame with the right checksum. */
  lemma GotIsIntact(env: Env, b: Bytes, offset: nat) returns (k: nat, p: nat)
    requires ReadRecord(env, b, offset).Got?
    ensures IsFrame(b, offset, k, p) && Intact(env, b, offset, k, p)
    ensures ReadRecord(env, b, offset).next == offset + 28 + k + p
  {
    k := Unle(b[offset + 16..offset + 20]);
    p := Unle(b[offset + 20 + k..offset + 24 + k]);
    NumberAt4(b, offset + 16);
    NumberAt4(b, offset + 20 + k);
    ReadWhole(env, b, offset, k, p);
  }

  /** The records stand in the bytes one after the other, each whole and with the right checksum. */
  ghost predicate FromFrames(env: Env, b: Bytes, cursor: nat, records: seq<WalRecord>)
    decreases |records|
  {
    records != [] ==>
      exists k: nat, p: nat :: FrameOf(env, b, cursor, records[0], k, p)
        && FromFrames(env, b, cursor + 28 + k + p, records[1..])
  }

  ghost predicate FrameOf(env: Env, b: Bytes, offset: nat, r: WalRecord, k: nat, p: nat) {
    && IsFrame(b, offset, k, p) && Intact(env, b, offset, k, p)
    && Number8(b, offset) == r.lsn && Number8(b, offset + 8) == r.prevLsn
    && env.parse(b[offset + 20..offset + 20 + k]) == Some(r.kind)
      && b[offset + 24 + k..offset + 24 + k + p] == r.payload
  }

  lemma GotIsFrame(env: Env, b: Bytes, offset: nat) returns (k: nat, p: nat)
    requires ReadRecord(env, b, offset).Got?
    ensures FrameOf(env, b, offset, ReadRecord(env, b, offset).record, k, p)
    ensures ReadRecord(env, b, offset).next == offset + 28 + k + p
  {
    k, p := GotIsIntact(env, b, offset);
    ReadWhole(env, b, offset, k, p);
  }

  lemma ScanEnds(env: Env, data: Bytes, c: nat)
    requires c >= |data| || !ReadRecord(env, data, c).Got?
    ensures Scanner(env, data)(c).0 == []
  {
  }

  lemma ScanStep(env: Env, data: Bytes, cursor: nat, scan: nat -> (seq<WalRecord>, Option<string>))
    returns (r: WalRecord, k: nat, p: nat)
    requires scan == Scanner(env, data) && cursor < |data| && ReadRecord(env, data, cursor).Got?
    ensures FrameOf(env, data, cursor, r, k, p) && scan(cursor) == Cons(r, scan(cursor + 28 + k + p))
  {
    k, p := GotIsFrame(env, data, cursor);
    r := ReadRecord(env, data, cursor).record;
    ScanReads(env, data, cursor, ReadRecord(env, data, cursor));
  }

  /** From `c` the scan yields nothing, or the record of an intact frame and then what follows the frame. */
  ghost predicate FramedAt(env: Env, data: Bytes, scan: nat -> (seq<WalRecord>, Option<string>), c: nat) {
    || scan(c).0 == []
    || (c < |data|
        && exists r, k: nat, p: nat :: FrameOf(env, data, c, r, k, p) && scan(c) == Cons(r, scan(c + 28 + k + p)))
  }

  lemma ScannerIsFramed(env: Env, data: Bytes, scan: nat -> (seq<WalRecord>, Option<string>), c: nat)
    requires scan == Scanner(env, data)
    ensures FramedAt(env, data, scan, c)
  {
    if c < |data| && ReadRecord(env, data, c).Got? {
      var r, k, p := ScanStep(env, data, c, scan);
    } else {
      ScanEnds(env, data, c);
    }
  }

  lemma FramedStep(env: Env, data: Bytes, c: nat, scan: nat -> (seq<WalRecord>, Option<string>)) returns (next: nat)
    requires FramedAt(env, data, scan, c) && scan(c).0 != []
    ensures c < next && c < |data|
    ensures FromFrames(env, data, next, scan(next).0) ==> FromFrames(env, data, c, scan(c).0)
  {
    var r, k: nat, p: nat :| FrameOf(env, data, c, r, k, p) && scan(c) == Cons(r, scan(c + 28 + k + p));
    next := c + 28 + k + p;
    StepFromFrame(env, data, c, r, k, p, scan(c).0, scan(next));
  }

  lemma StepFromFrame(env: Env, data: Bytes, c: nat, r: WalRecord, k: nat, p: nat, all: seq<WalRecord>,
                      tail: (seq<WalRecord>, Option<string>))
    requires FrameOf(env, data, c, r, k, p) && all == Cons(r, tail).0
    ensures FromFrames(env, data, c + 28 + k + p, tail.0) ==> FromFrames(env, data, c, all)
  {
    if FromFrames(env, data, c + 28 + k + p, tail.0) {
      YieldStep(env, data, c, r, tail.0, k, p);
    }
  }

  lemma {:induction false} FramedAreIntact(env: Env, data: Bytes, c: nat, scan: nat -> (seq<WalRecord>, Option<string>))
    requires forall d: nat :: FramedAt(env, data, scan, d)
    ensures FromFrames(env, data, c, scan(c).0)
    decreases |data| - c
  {
    assert FramedAt(env, data, scan, c);
    if scan(c).0 != [] {
      var next := FramedStep(env, data, c, scan);
      FramedAreIntact(env, data, next, scan);
    }
  }

  /** A segment yields records from intact frames only, and stops at the first that is not. */
  lemma YieldedAreIntact(env: Env, data: Bytes, cursor: nat)
    ensures FromFrames(env, data, cursor, Scan(env, data, cursor).0)
  {
    var scan := Scanner(env, data);
    forall d: nat
      ensures FramedAt(env, data, scan, d)
    {
      ScannerIsFramed(env, data, scan, d);
    }
    FramedAreIntact(env, data, cursor, scan);
    ScannerAt(env, data, cursor);
  }

  lemma YieldStep(env: Env, data: Bytes, cursor: nat, r: WalRecord, rest: seq<WalRecord>, k: nat, p: nat)
    requires FrameOf(env, data, cursor, r, k, p) && FromFrames(env, data, cursor + 28 + k + p, rest)
    ensures FromFrames(env, data, cursor, [r] + rest)
  {
    var records := [r] + rest;
    assert records[0] == r && records[1..] == rest;
    assert FrameOf(env, data, cursor, records[0], k, p) && FromFrames(env, data, cursor + 28 + k + p, records[1..]);
  }

  // ---------------------------------------------------------------- a damaged segment

  /** Whole records in front are read, whatever follows them. */
  lemma {:induction false} ScanPast(env: Env, data: Bytes, cursor: nat, records: seq<WalRecord>,
                                    scan: nat -> (seq<WalRecord>, Option<string>))
    requires AllInRange(env, records) && Stepwise(env, data, scan)
    requires cursor + |Written(env, records)| <= |data| && Agrees(data, cursor, Written(env, records))
    ensures var rest := scan(cursor + |Written(env, records)|); scan(cursor) == (records + rest.0, rest.1)
    decreases |records|
  {
    if records == [] {
      assert [] + scan(cursor).0 == scan(cursor).0;
    } else {
      var next := cursor + |Encoded(env, records[0])|;
      WrittenParts(env, data, cursor, records);
      ScanPast(env, data, next, records[1..], scan);
      assert StepTo(data, scan, cursor, records[0], next);
      assert records == [records[0]] + records[1..];
      FrontBack(records, scan(cursor + |Written(env, records)|).0);
    }
  }

  lemma FrontBack(records: seq<WalRecord>, rest: seq<WalRecord>)
    requires records != []
    ensures [records[0]] + (records[1..] + rest) == records + rest
  {
  }

  lemma WrittenParts(env: Env, data: Bytes, cursor: nat, records: seq<WalRecord>)
    requires records != [] && Agrees(data, cursor, Written(env, records)) && cursor + |Written(env, records)| <= |data|
    ensures var b := Encoded(env, records[0]);
      && |Written(env, records)| == |b| + |Written(env, records[1..])| && cursor + |b| <= |data|
      && Agrees(data, cursor, b) && Agrees(data, cursor + |b|, Written(env, records[1..]))
  {
    var b, rest := Encoded(env, records[0]), Written(env, records[1..]);
    assert Written(env, records) == b + rest;
    forall i | 0 <= i < |b|
      ensures data[cursor + i] == b[i]
    {
      assert (b + rest)[i] == b[i];
    }
    forall i | 0 <= i < |rest|
      ensures data[cursor + |b| + i] == rest[i]
    {
      assert data[cursor + (|b| + i)] == (b + rest)[|b| + i];
    }
  }

  lemma ScanFault(env: Env, data: Bytes, c: nat, code: string)
    requires c < |data| && ReadRecord(env, data, c) == Fault(code)
    ensures Scanner(env, data)(c) == ([], Some(code))
  {
  }

  /** A frame whose kind can be read but whose checksum does not fit. */
  ghost predicate Damaged(env: Env, bad: Bytes) {
    exists k: nat, p: nat :: DamagedWith(env, bad, k, p)
  }

  ghost predicate DamagedWith(env: Env, bad: Bytes, k: nat, p: nat) {
    |bad| == 28 + k + p && IsFrame(bad, 0, k, p) && env.parse(bad[20..20 + k]).Some? && !Intact(env, bad, 0, k, p)
  }

  lemma FrameInside(b: Bytes, offset: nat, bad: Bytes, k: nat, p: nat)
    requires |bad| == 28 + k + p && IsFrame(bad, 0, k, p) && offset + |bad| <= |b| && b[offset..offset + |bad|] == bad
    ensures IsFrame(b, offset, k, p) && b[offset + 20..offset + 20 + k] == bad[20..20 + k]
    ensures b[offset..offset + 24 + k + p] == bad[..24 + k + p]
      && Number4(b, offset + 24 + k + p) == Number4(bad, 24 + k + p)
  {
    forall i | 0 <= i < |bad|
      ensures b[offset + i] == bad[i]
    {
      assert b[offset..offset + |bad|][i] == bad[i];
    }
  }

  lemma DamageReads(env: Env, data: Bytes, cursor: nat, bad: Bytes)
    requires Damaged(env, bad) && cursor + |bad| <= |data| && data[cursor..cursor + |bad|] == bad
    ensures |bad| > 0 && ReadRecord(env, data, cursor) == Fault("CDB-7052")
  {
    var k: nat, p: nat :| DamagedWith(env, bad, k, p);
    DamageAt(env, data, cursor, bad, k, p);
  }

  lemma DamageAt(env: Env, data: Bytes, cursor: nat, bad: Bytes, k: nat, p: nat)
    requires DamagedWith(env, bad, k, p) && cursor + |bad| <= |data| && data[cursor..cursor + |bad|] == bad
    ensures ReadRecord(env, data, cursor) == Fault("CDB-7052")
  {
    FrameInside(data, cursor, bad, k, p);
    assert bad[0..0 + 24 + k + p] == bad[..24 + k + p];
    ReadWhole(env, data, cursor, k, p);
  }

  /** A segment with a damaged record yields the records before it, then CDB-7052, and nothing after. */
  method ReadDamagedSegment(env: Env, ghost records: seq<WalRecord>, ghost bad: Bytes, ghost rest: Bytes, data: Bytes)
    returns (read: seq<WalRecord>, error: Option<string>)
    requires Faithful(env) && AllInRange(env, records) && Damaged(env, bad)
    requires data == SegmentBytes(env, records) + bad + rest
    ensures read == records && error == Some("CDB-7052")
  {
    DamagedScan(env, records, bad, rest, data);
    read, error := IterSegment(env, data);
  }

  lemma DamagedScan(env: Env, records: seq<WalRecord>, bad: Bytes, rest: Bytes, data: Bytes)
    requires Faithful(env) && AllInRange(env, records) && Damaged(env, bad)
    requires data == SegmentBytes(env, records) + bad + rest
    ensures |data| >= HEADER_SIZE && data[..8] == MAGIC && Scan(env, data, HEADER_SIZE) == (records, Some("CDB-7052"))
  {
    var cut := HEADER_SIZE + |Written(env, records)|;
    PartsOf(Header(env), Written(env, records), bad, rest, data);
    DamageReads(env, data, cut, bad);
    ScanFault(env, data, cut, "CDB-7052");
    ScanIsStepwise(env, data);
    ScanPast(env, data, HEADER_SIZE, records, Scanner(env, data));
    ScannerAt(env, data, HEADER_SIZE);
    assert records + [] == records;
  }

  lemma PartsOf(header: Bytes, written: Bytes, bad: Bytes, rest: Bytes, data: Bytes)
    requires |header| >= 8 && data == header + written + bad + rest
    ensures |data| == |header| + |written| + |bad| + |rest| && data[..8] == header[..8]
    ensures Agrees(data, |header|, written)
    ensures var cut := |header| + |written|; data[cut..cut + |bad|] == bad
  {
    forall i | 0 <= i < |written|
      ensures data[|header| + i] == written[i]
    {
    }
  }

  /** Changed bytes outside the lengths, the kind and the stored checksum are damage if they change the checksum. */
  lemma ChangedIsDamaged(env: Env, r: WalRecord, bad: Bytes)
    requires Faithful(env) && InRange(env, r)
    requires var b, k := Encoded(env, r), |env.utf8(r.kind)|; var n := |b| - 4;
      && |bad| == |b| && bad[16..24 + k] == b[16..24 + k] && bad[n..] == b[n..]
      && env.checksum(bad[..n]) % 4294967296 != env.checksum(b[..n]) % 4294967296
    ensures Damaged(env, bad)
  {
    EncodedFields(env, r);
    ChangedFields(env, r, Encoded(env, r), bad, |env.utf8(r.kind)|, |r.payload|);
    assert DamagedWith(env, bad, |env.utf8(r.kind)|, |r.payload|);
  }

  lemma ChangedFields(env: Env, r: WalRecord, b: Bytes, bad: Bytes, k: nat, p: nat)
    requires Fields(env, r, b, k, p) && |bad| == |b| && bad[16..24 + k] == b[16..24 + k]
    requires var n := |b| - 4;
      bad[n..] == b[n..] && env.checksum(bad[..n]) % 4294967296 != env.checksum(b[..n]) % 4294967296
    ensures DamagedWith(env, bad, k, p)
  {
    FieldNumbers(env, r, b, k, p);
    SameNumber(b, bad, 16, 16, 24 + k);
    SameNumber(b, bad, 20 + k, 16, 24 + k);
    SameNumber(b, bad, 24 + k + p, 24 + k + p, |b|);
    SameSlice(b, bad, 16, 20, 20 + k, 24 + k);
    assert bad[0..24 + k + p] == bad[..24 + k + p] && b[0..24 + k + p] == b[..24 + k + p];
  }

  lemma FieldNumbers(env: Env, r: WalRecord, b: Bytes, k: nat, p: nat)
    requires Fields(env, r, b, k, p)
    ensures Number4(b, 16) == k && Number4(b, 20 + k) == p && env.parse(b[20..20 + k]) == Some(r.kind)
    ensures Number4(b, 24 + k + p) == env.checksum(b[0..24 + k + p]) % 4294967296
  {
    WidthIs();
    NumberAt4(b, 16);
    NumberAt4(b, 20 + k);
    NumberAt4(b, 24 + k + p);
  }

  lemma SameSlice(b: Bytes, bad: Bytes, from: nat, lo: nat, hi: nat, to: nat)
    requires |b| == |bad| && from <= lo <= hi <= to <= |b| && bad[from..to] == b[from..to]
    ensures bad[lo..hi] == b[lo..hi]
  {
    forall i | lo <= i < hi
      ensures bad[i] == b[i]
    {
      assert bad[from..to][i - from] == b[from..to][i - from];
    }
  }

  lemma SameNumber(b: Bytes, bad: Bytes, at: nat, from: nat, to: nat)
    requires |b| == |bad| && from <= at && at + 4 <= to <= |b| && bad[from..to] == b[from..to]
    ensures Number4(bad, at) == Number4(b, at)
  {
    forall i | at <= i < at + 4
      ensures bad[i] == b[i]
    {
      assert bad[from..to][i - from] == b[from..to][i - from];
    }
  }

  // ---------------------------------------------------------------- the layout in bytes

  /** What `encode` writes, byte range by byte range. */
  lemma EncodedBytes(env: Env, r: WalRecord)
    requires InRange(env, r)
    ensures var b, k, p := Encoded(env, r), |env.utf8(r.kind)|, |r.payload|;
      && |b| == 28 + k + p
      && Number8(b, 0) == r.lsn && Number8(b, 8) == r.prevLsn
      && Number4(b, 16) == k && b[20..20 + k] == env.utf8(r.kind)
      && Number4(b, 20 + k) == p && b[24 + k..24 + k + p] == r.payload
      && Number4(b, 24 + k + p) == env.checksum(b[..24 + k + p]) % 4294967296
  {
    Layout(env, r);
    LayoutNumbers(env, r);
    WidthIs();
    BytesAsNumbers(Encoded(env, r), |env.utf8(r.kind)|, |r.payload|);
  }

  lemma BytesAsNumbers(b: Bytes, k: nat, p: nat)
    requires |b| == 28 + k + p
    ensures Unle(b[..8]) == Number8(b, 0) && Unle(b[8..16]) == Number8(b, 8) && Unle(b[16..20]) == Number4(b, 16)
    ensures Unle(b[20 + k..24 + k]) == Number4(b, 20 + k) && Unle(b[24 + k + p..]) == Number4(b, 24 + k + p)
  {
    assert b[0..0 + 8] == b[..8] && b[24 + k + p..24 + k + p + 4] == b[24 + k + p..];
    NumberAt8(b, 0);
    NumberAt8(b, 8);
    NumberAt4(b, 16);
    NumberAt4(b, 20 + k);
    NumberAt4(b, 24 + k + p);
  }

  /** What `pack_header` writes: magic, version 1, page size 16384, no flags, checksum. */
  lemma HeaderBytes(env: Env)
    ensures var h := Header(env);
      && |h| == 24 && h[..8] == [67, 82, 67, 76, 0, 0, 0, 1]
      && Number4(h, 8) == 1 && Number4(h, 12) == 16384 && Number4(h, 16) == 0
      && Number4(h, 20) == env.checksum(h[..20]) % 4294967296
  {
    var fields := HeaderFields(1, 16384, 0);
    HeaderParts(MAGIC, Le(1, 4), Le(16384, 4), Le(0, 4), Le(Crc(env, fields), 4));
    WidthIs();
    NumberOfLe(1);
    NumberOfLe(16384);
    NumberOfLe(0);
    NumberOfLe(Crc(env, fields));
  }

  lemma NumberOfLe(n: nat)
    requires n < 4294967296
    ensures Number4(Le(n, 4), 0) == n
  {
    WidthIs();
    UnleLe(n, 4);
    Unle4(Le(n, 4));
  }

  lemma HeaderParts(magic: Bytes, version: Bytes, size: Bytes, flags: Bytes, crc: Bytes)
    requires |magic| == 8 && |version| == |size| == |flags| == |crc| == 4
    ensures var fields := magic + version + size + flags; var h := fields + crc;
      && |h| == 24 && h[..8] == magic && h[..20] == fields
      && Number4(h, 8) == Number4(version, 0) && Number4(h, 12) == Number4(size, 0)
      && Number4(h, 16) == Number4(flags, 0) && Number4(h, 20) == Number4(crc, 0)
  {
  }
}
