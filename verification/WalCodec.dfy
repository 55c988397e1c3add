/** The write-ahead log's record format and segment reader (storage/wal.py). */
module WalCodec {
  import opened Results

  type Byte = x: nat | x < 256
  type Bytes = seq<Byte>

  /** CRC-32 and UTF-8, which the engine takes from Python. */
  datatype Env = Env(checksum: Bytes -> nat, utf8: string -> Bytes, parse: Bytes -> Option<string>)

  ghost predicate Faithful(env: Env) {
    forall s :: env.parse(env.utf8(s)) == Some(s)
  }

  function Crc(env: Env, body: Bytes): nat {
    env.checksum(body) % Width(4)
  }

  // ---------------------------------------------------------------- little-endian integers

  /** How many values fit in `k` bytes. */
  function Width(k: nat): (w: nat)
    ensures w > 0
  {
    if k == 0 then 1 else 256 * Width(k - 1)
  }

  function Le(n: nat, k: nat): (b: Bytes)
    ensures |b| == k
  {
    if k == 0 then [] else [n % 256] + Le(n / 256, k - 1)
  }

  function Unle(b: Bytes): nat {
    if b == [] then 0 else b[0] + 256 * Unle(b[1..])
  }

  lemma {:induction false} UnleLe(n: nat, k: nat)
    requires n < Width(k)
    ensures Unle(Le(n, k)) == n
  {
    if k > 0 {
      UnleLe(n / 256, k - 1);
      assert Le(n, k)[1..] == Le(n / 256, k - 1);
    }
  }

  // ---------------------------------------------------------------- records

  type Lsn = nat

  datatype WalRecord = WalRecord(lsn: Lsn, prevLsn: Lsn, kind: string, payload: Bytes)

  /** The fields fit the fixed-width slots of the layout; outside, `struct.pack` raises. */
  predicate InRange(env: Env, r: WalRecord) {
    r.lsn < Width(8) && r.prevLsn < Width(8) && |env.utf8(r.kind)| < Width(4) && |r.payload| < Width(4)
  }

  function Body(env: Env, r: WalRecord): Bytes {
    Le(r.lsn, 8) + Le(r.prevLsn, 8)
    + Le(|env.utf8(r.kind)|, 4) + env.utf8(r.kind)
    + Le(|r.payload|, 4) + r.payload
  }

  function Encoded(env: Env, r: WalRecord): (b: Bytes)
    ensures |b| == 28 + |env.utf8(r.kind)| + |r.payload|
  {
    Body(env, r) + Le(Crc(env, Body(env, r)), 4)
  }

  function Encode(env: Env, r: WalRecord): Result<Bytes> {
    if InRange(env, r) then Ok(Encoded(env, r)) else Err("struct.error")
  }

  datatype Read = Truncated | Fault(code: string) | Got(record: WalRecord, next: nat)

  /** `_read_record`: one record at `offset`, or a cleanly truncated tail, or a corrupt one. */
  function ReadRecord(env: Env, buffer: Bytes, offset: nat): (r: Read)
    ensures r.Got? ==> offset < r.next <= |buffer|
  {
    if offset + 16 > |buffer| then Truncated
    else
      var lsn := Unle(buffer[offset..offset + 8]);
      var prevLsn := Unle(buffer[offset + 8..offset + 16]);
      var atKind := offset + 20;
      if atKind > |buffer| then Truncated
      else
        var kindLen := Unle(buffer[offset + 16..atKind]);
        if atKind + kindLen + 4 > |buffer| then Truncated
        else
          match env.parse(buffer[atKind..atKind + kindLen])
          case None => Fault("UnicodeDecodeError")
          case Some(kind) => ReadPayload(env, buffer, offset, lsn, prevLsn, kind, atKind + kindLen)
  }

  /** Where each field of an encoded record sits. */
  lemma Layout(env: Env, r: WalRecord)
    requires InRange(env, r)
    ensures var b, k, p := Encoded(env, r), |env.utf8(r.kind)|, |r.payload|;
      && b[..8] == Le(r.lsn, 8) && b[8..16] == Le(r.prevLsn, 8)
      && b[16..20] == Le(k, 4) && b[20..20 + k] == env.utf8(r.kind)
      && b[20 + k..24 + k] == Le(p, 4) && b[24 + k..24 + k + p] == r.payload
      && b[..24 + k + p] == Body(env, r) && b[24 + k + p..] == Le(Crc(env, Body(env, r)), 4)
  {
    FieldsOf(Le(r.lsn, 8), Le(r.prevLsn, 8), Le(|env.utf8(r.kind)|, 4), env.utf8(r.kind), Le(|r.payload|, 4),
        r.payload, Le(Crc(env, Body(env, r)), 4));
  }

  lemma FieldsOf(lsn: Bytes, prev: Bytes, kindLen: Bytes, kind: Bytes, payloadLen: Bytes, payload: Bytes, crc: Bytes)
    requires |lsn| == |prev| == 8 && |kindLen| == |payloadLen| == |crc| == 4
    ensures var body := lsn + prev + kindLen + kind + payloadLen + payload;
      var b, k, p := body + crc, |kind|, |payload|;
      && b[..8] == lsn && b[8..16] == prev && b[16..20] == kindLen && b[20..20 + k] == kind
      && b[20 + k..24 + k] == payloadLen && b[24 + k..24 + k + p] == payload
      && b[..24 + k + p] == body && b[24 + k + p..] == crc
  {
  }

  lemma LayoutNumbers(env: Env, r: WalRecord)
    requires InRange(env, r)
    ensures var b, k, p := Encoded(env, r), |env.utf8(r.kind)|, |r.payload|;
      && Unle(b[..8]) == r.lsn && Unle(b[8..16]) == r.prevLsn && Unle(b[16..20]) == k && Unle(b[20 + k..24 + k]) == p
      && Unle(b[24 + k + p..]) == Crc(env, b[..24 + k + p])
  {
    Layout(env, r);
    UnleLe(r.lsn, 8);
    UnleLe(r.prevLsn, 8);
    UnleLe(|env.utf8(r.kind)|, 4);
    UnleLe(|r.payload|, 4);
    UnleLe(Crc(env, Body(env, r)), 4);
  }

  lemma LayoutValues(env: Env, r: WalRecord)
    requires InRange(env, r) && Faithful(env)
    ensures var b, k, p := Encoded(env, r), |env.utf8(r.kind)|, |r.payload|;
      && Unle(b[..8]) == r.lsn && Unle(b[8..16]) == r.prevLsn
      && Unle(b[16..20]) == k && env.parse(b[20..20 + k]) == Some(r.kind)
      && Unle(b[20 + k..24 + k]) == p && b[24 + k..24 + k + p] == r.payload
      && Unle(b[24 + k + p..]) == Crc(env, b[..24 + k + p])
  {
    Layout(env, r);
    LayoutNumbers(env, r);
  }

  /** The buffer at `offset` and the bytes `b` agree as far as both go. */
  ghost predicate Agrees(buffer: Bytes, offset: nat, b: Bytes) {
    offset <= |buffer| && forall i :: 0 <= i < |b| && offset + i < |buffer| ==> buffer[offset + i] == b[i]
  }

  lemma AgreesOnSlice(buffer: Bytes, offset: nat, b: Bytes, from: nat, to: nat)
    requires Agrees(buffer, offset, b) && from <= to <= |b| && offset + to <= |buffer|
    ensures buffer[offset + from..offset + to] == b[from..to]
  {
    forall i | 0 <= i < to - from
      ensures buffer[offset + from..offset + to][i] == b[from..to][i]
    {
      assert buffer[offset + (from + i)] == b[from + i];
    }
  }

  /** The fields of `r` as a reader finds them in `b`, with `k` bytes of kind and `p` of payload. */
  ghost predicate Fields(env: Env, r: WalRecord, b: Bytes, k: nat, p: nat) {
    && |b| == 28 + k + p
    && Unle(b[0..8]) == r.lsn && Unle(b[8..16]) == r.prevLsn
    && Unle(b[16..20]) == k && env.parse(b[20..20 + k]) == Some(r.kind)
    && Unle(b[20 + k..24 + k]) == p && b[24 + k..24 + k + p] == r.payload
    && Unle(b[24 + k + p..28 + k + p]) == Crc(env, b[0..24 + k + p])
  }

  lemma EncodedFields(env: Env, r: WalRecord)
    requires InRange(env, r) && Faithful(env)
    ensures Fields(env, r, Encoded(env, r), |env.utf8(r.kind)|, |r.payload|)
  {
    var b, k, p := Encoded(env, r), |env.utf8(r.kind)|, |r.payload|;
    LayoutValues(env, r);
    assert b[0..8] == b[..8] && b[0..24 + k + p] == b[..24 + k + p] && b[24 + k + p..28 + k + p] == b[24 + k + p..];
  }

  /** Reading inverts encoding where the record is whole, and stops cleanly where it is cut. */
  lemma ReadInvertsEncode(env: Env, r: WalRecord, buffer: Bytes, offset: nat)
    requires InRange(env, r) && Faithful(env) && Agrees(buffer, offset, Encoded(env, r))
    ensures ReadRecord(env, buffer, offset) ==
      if offset + |Encoded(env, r)| <= |buffer| then Got(r, offset + |Encoded(env, r)|) else Truncated
  {
    EncodedFields(env, r);
    ReadFields(env, r, Encoded(env, r), |env.utf8(r.kind)|, |r.payload|, buffer, offset);
  }

  lemma ReadFields(env: Env, r: WalRecord, b: Bytes, k: nat, p: nat, buffer: Bytes, offset: nat)
    requires Fields(env, r, b, k, p) && Agrees(buffer, offset, b)
    ensures ReadRecord(env, buffer, offset) == if offset + |b| <= |buffer| then Got(r, offset + |b|) else Truncated
  {
    if offset + 16 <= |buffer| {
      AgreesOnSlice(buffer, offset, b, 0, 8);
      AgreesOnSlice(buffer, offset, b, 8, 16);
      if offset + 20 <= |buffer| {
        AgreesOnSlice(buffer, offset, b, 16, 20);
        if offset + 24 + k <= |buffer| {
          AgreesOnSlice(buffer, offset, b, 20, 20 + k);
          ReadTail(env, r, b, k, p, buffer, offset);
        }
      }
    }
  }

  /** The part of `ReadRecord` that follows the kind. */
  function ReadPayload(env: Env, buffer: Bytes, offset: nat, lsn: Lsn, prevLsn: Lsn, kind: string, at: nat): Read
    requires offset <= at && at + 4 <= |buffer|
  {
    var payloadLen := Unle(buffer[at..at + 4]);
    var atCrc := at + 4 + payloadLen;
    if atCrc + 4 > |buffer| then Truncated
    else if Crc(env, buffer[offset..atCrc]) != Unle(buffer[atCrc..atCrc + 4]) then Fault("CDB-7052")
    else Got(WalRecord(lsn, prevLsn, kind, buffer[at + 4..atCrc]), atCrc + 4)
  }

  lemma ReadTail(env: Env, r: WalRecord, b: Bytes, k: nat, p: nat, buffer: Bytes, offset: nat)
    requires Fields(env, r, b, k, p) && Agrees(buffer, offset, b) && offset + 24 + k <= |buffer|
    ensures ReadPayload(env, buffer, offset, r.lsn, r.prevLsn, r.kind, offset + 20 + k) ==
      if offset + |b| <= |buffer| then Got(r, offset + |b|) else Truncated
  {
    AgreesOnSlice(buffer, offset, b, 20 + k, 24 + k);
    if offset + |b| <= |buffer| {
      AgreesOnSlice(buffer, offset, b, 24 + k, 24 + k + p);
      AgreesOnSlice(buffer, offset, b, 0, 24 + k + p);
      AgreesOnSlice(buffer, offset, b, 24 + k + p, 28 + k + p);
    }
  }

  // ---------------------------------------------------------------- segments

  const MAGIC: Bytes := [67, 82, 67, 76, 0, 0, 0, 1]
  const HEADER_SIZE: nat := 24

  /** `pack_header` with its default version, page size and flags. */
  function Header(env: Env): (h: Bytes)
    ensures |h| == HEADER_SIZE && h[..8] == MAGIC
  {
    var fields := HeaderFields(1, 16384, 0);
    fields + Le(Crc(env, fields), 4)
  }

  function HeaderFields(version: nat, pageSize: nat, flags: nat): (b: Bytes)
    ensures |b| == 20 && b[..8] == MAGIC
  {
    MAGIC + Le(version, 4) + Le(pageSize, 4) + Le(flags, 4)
  }

  function Written(env: Env, records: seq<WalRecord>): Bytes {
    if records == [] then [] else Encoded(env, records[0]) + Written(env, records[1..])
  }

  /** A segment file after appending `records`. */
  function SegmentBytes(env: Env, records: seq<WalRecord>): Bytes {
    Header(env) + Written(env, records)
  }

  /** What a reader at `cursor` yields, and the error that ends it, if any. */
  function Scan(env: Env, data: Bytes, cursor: nat): (seq<WalRecord>, Option<string>)
    decreases |data| - cursor
  {
    if cursor >= |data| then ([], None)
    else
      match ReadRecord(env, data, cursor)
      case Truncated => ([], None)
      case Fault(code) => ([], Some(code))
      case Got(record, next) =>
        var rest := Scan(env, data, next);
        ([record] + rest.0, rest.1)
  }

  /** `iter_segment_records`. */
  method IterSegment(env: Env, data: Bytes) returns (records: seq<WalRecord>, error: Option<string>)
    ensures |data| < HEADER_SIZE || data[..8] != MAGIC ==> records == [] && error == Some("CDB-7053")
    ensures |data| >= HEADER_SIZE && data[..8] == MAGIC ==> (records, error) == Scan(env, data, HEADER_SIZE)
  {
    records, error := [], None;
    if |data| < HEADER_SIZE || data[..8] != MAGIC {
      return [], Some("CDB-7053");
    }
    var cursor := HEADER_SIZE;
    ghost var whole := Scan(env, data, HEADER_SIZE);
    assert [] + whole.0 == whole.0;
    while cursor < |data|
      invariant cursor <= |data| && error == None
      invariant whole == (records + Scan(env, data, cursor).0, Scan(env, data, cursor).1)
      decreases |data| - cursor
    {
      match ReadRecord(env, data, cursor)
      case Truncated =>
        assert records + [] == records;
        return;
      case Fault(code) =>
        assert records + [] == records;
        error := Some(code);
        return;
      case Got(record, next) =>
        assert records + ([record] + Scan(env, data, next).0) == (records + [record]) + Scan(env, data, next).0;
        records, cursor := records + [record], next;
    }
    assert records + [] == records;
  }

  // ---------------------------------------------------------------- cut segments

  ghost predicate AllInRange(env: Env, records: seq<WalRecord>) {
    forall i :: 0 <= i < |records| ==> InRange(env, records[i])
  }

  /** `n` is how many of the records lie wholly within the first `cut` bytes after the header. */
  ghost predicate WhollyInside(env: Env, records: seq<WalRecord>, cut: nat, n: nat) {
    && n <= |records| && |Written(env, records[..n])| <= cut
    && (n < |records| ==> cut < |Written(env, records[..n + 1])|)
  }

  lemma ScanOfCut(env: Env, data: Bytes, cursor: nat, records: seq<WalRecord>) returns (n: nat)
    requires Faithful(env) && AllInRange(env, records) && cursor <= |data|
    requires |data| - cursor <= |Written(env, records)| && data[cursor..] == Written(env, records)[..|data| - cursor]
    ensures WhollyInside(env, records, |data| - cursor, n)
    ensures Scan(env, data, cursor) == (records[..n], None)
  {
    ScanIsStepwise(env, data);
    n := CutOfStepwise(env, data, cursor, records, Scanner(env, data));
  }

  /** The scan goes past a record that ends at `next` and stops cleanly at one that is cut. */
  ghost predicate StepTo(data: Bytes, scan: nat -> (seq<WalRecord>, Option<string>), c: nat, r: WalRecord, next: nat) {
    scan(c) == if next <= |data| then Cons(r, scan(next)) else ([], None)
  }

  /** All that matters of a scan here. */
  ghost predicate Stepwise(env: Env, data: Bytes, scan: nat -> (seq<WalRecord>, Option<string>)) {
    && scan(|data|) == ([], None)
    && forall c: nat, r :: InRange(env, r) && Agrees(data, c, Encoded(env, r)) ==>
      StepTo(data, scan, c, r, c + |Encoded(env, r)|)
  }

  function Scanner(env: Env, data: Bytes): nat -> (seq<WalRecord>, Option<string>) {
    (c: nat) => Scan(env, data, c)
  }

  function Cons(r: WalRecord, rest: (seq<WalRecord>, Option<string>)): (seq<WalRecord>, Option<string>) {
    ([r] + rest.0, rest.1)
  }

  lemma ScannerAt(env: Env, data: Bytes, c: nat)
    ensures Scanner(env, data)(c) == Scan(env, data, c)
  {
  }

  lemma ScannerStep(env: Env, data: Bytes, scan: nat -> (seq<WalRecord>, Option<string>), c: nat, r: WalRecord)
    requires Faithful(env) && InRange(env, r) && Agrees(data, c, Encoded(env, r)) && scan == Scanner(env, data)
    ensures StepTo(data, scan, c, r, c + |Encoded(env, r)|)
  {
    ReadInvertsEncode(env, r, data, c);
    ReadSteps(env, data, c, r, c + |Encoded(env, r)|);
  }

  lemma ReadSteps(env: Env, data: Bytes, c: nat, r: WalRecord, next: nat)
    requires c <= |data| && ReadRecord(env, data, c) == if next <= |data| then Got(r, next) else Truncated
    ensures StepTo(data, Scanner(env, data), c, r, next)
  {
    if c < |data| {
      ScanReads(env, data, c, ReadRecord(env, data, c));
    } else {
      ScannerAt(env, data, c);
    }
  }

  lemma ScanIsStepwise(env: Env, data: Bytes)
    requires Faithful(env)
    ensures Stepwise(env, data, Scanner(env, data))
  {
    var scan := Scanner(env, data);
    ScannerAt(env, data, |data|);
    forall c: nat, r | InRange(env, r) && Agrees(data, c, Encoded(env, r))
      ensures StepTo(data, scan, c, r, c + |Encoded(env, r)|)
    {
      ScannerStep(env, data, scan, c, r);
    }
  }

  lemma {:induction false} CutOfStepwise(env: Env, data: Bytes, cursor: nat, records: seq<WalRecord>,
                                         scan: nat -> (seq<WalRecord>, Option<string>))
    returns (n: nat)
    requires AllInRange(env, records) && cursor <= |data| && Stepwise(env, data, scan)
    requires |data| - cursor <= |Written(env, records)| && data[cursor..] == Written(env, records)[..|data| - cursor]
    ensures WhollyInside(env, records, |data| - cursor, n) && scan(cursor) == (records[..n], None)
    decreases |records|
  {
    n := 0;
    assert records[..0] == [];
    if records != [] {
      var next := cursor + |Encoded(env, records[0])|;
      FirstRecordAgrees(env, data, cursor, records);
      assert StepTo(data, scan, cursor, records[0], next);
      if next <= |data| {
        var m := CutOfStepwise(env, data, next, records[1..], scan);
        n := m + 1;
        InsideCons(env, records, |data| - cursor, m);
        assert records[..m + 1] == [records[0]] + records[1..][..m];
      } else {
        NothingInside(env, records, |data| - cursor);
      }
    }
  }

  lemma ScanReads(env: Env, data: Bytes, c: nat, read: Read)
    requires c < |data| && read == ReadRecord(env, data, c) && !read.Fault?
    ensures read.Truncated? ==> Scanner(env, data)(c) == ([], None)
    ensures read.Got? ==> Scanner(env, data)(c) == Cons(read.record, Scanner(env, data)(read.next))
  {
  }

  lemma NothingInside(env: Env, records: seq<WalRecord>, cut: nat)
    requires records != [] && cut < |Encoded(env, records[0])|
    ensures WhollyInside(env, records, cut, 0)
  {
    assert records[..1][1..] == [] && records[..1][0] == records[0];
  }

  lemma FirstRecordAgrees(env: Env, data: Bytes, cursor: nat, records: seq<WalRecord>)
    requires records != [] && cursor <= |data| && |data| - cursor <= |Written(env, records)|
    requires data[cursor..] == Written(env, records)[..|data| - cursor]
    ensures Agrees(data, cursor, Encoded(env, records[0]))
    ensures cursor + |Encoded(env, records[0])| <= |data| ==>
      var next := cursor + |Encoded(env, records[0])|;
      |data| - next <= |Written(env, records[1..])| && data[next..] == Written(env, records[1..])[..|data| - next]
  {
    var b := Encoded(env, records[0]);
    forall i | 0 <= i < |b| && cursor + i < |data|
      ensures data[cursor + i] == b[i]
    {
      assert data[cursor..][i] == Written(env, records)[i];
    }
    if cursor + |b| <= |data| {
      var next, rest := cursor + |b|, Written(env, records[1..]);
      assert data[next..] == data[cursor..][|b|..];
      assert Written(env, records)[|b|..] == rest;
    }
  }

  lemma InsideCons(env: Env, records: seq<WalRecord>, cut: nat, m: nat)
    requires records != [] && |Encoded(env, records[0])| <= cut
    requires WhollyInside(env, records[1..], cut - |Encoded(env, records[0])|, m)
    ensures WhollyInside(env, records, cut, m + 1)
  {
    assert records[..m + 1][1..] == records[1..][..m];
    if m + 1 < |records| {
      assert records[..m + 2][1..] == records[1..][..m + 1];
    }
  }

  lemma CutReads(env: Env, written: seq<WalRecord>, data: Bytes) returns (n: nat)
    requires Faithful(env) && AllInRange(env, written)
    requires HEADER_SIZE <= |data| && data <= SegmentBytes(env, written)
    ensures data[..8] == MAGIC && WhollyInside(env, written, |data| - HEADER_SIZE, n)
    ensures Scan(env, data, HEADER_SIZE) == (written[..n], None)
  {
    assert data[..8] == SegmentBytes(env, written)[..8] == Header(env)[..8];
    assert data[HEADER_SIZE..] == SegmentBytes(env, written)[HEADER_SIZE..|data|];
    assert SegmentBytes(env, written)[HEADER_SIZE..] == Written(env, written);
    n := ScanOfCut(env, data, HEADER_SIZE, written);
  }

  /** Every cut at or after the header: exactly the records wholly inside, and no error. */
  method ReadCutSegment(env: Env, ghost written: seq<WalRecord>, data: Bytes)
    returns (records: seq<WalRecord>, error: Option<string>, ghost n: nat)
    requires Faithful(env) && AllInRange(env, written)
    requires HEADER_SIZE <= |data| && data <= SegmentBytes(env, written)
    ensures WhollyInside(env, written, |data| - HEADER_SIZE, n) && records == written[..n] && error == None
  {
    n := CutReads(env, written, data);
    records, error := IterSegment(env, data);
  }

  /** The count is determined by the cut. */
  lemma WhollyInsideUnique(env: Env, records: seq<WalRecord>, cut: nat, m: nat, n: nat)
    requires WhollyInside(env, records, cut, m) && WhollyInside(env, records, cut, n)
    ensures m == n
  {
    if m < n {
      LongerIsCut(env, records, cut, m, n);
    } else if n < m {
      LongerIsCut(env, records, cut, n, m);
    }
  }

  lemma LongerIsCut(env: Env, records: seq<WalRecord>, cut: nat, m: nat, n: nat)
    requires WhollyInside(env, records, cut, m) && m < n <= |records|
    ensures cut < |Written(env, records[..n])|
  {
    WrittenGrows(env, records[..n], m + 1);
    assert records[..n][..m + 1] == records[..m + 1];
  }

  lemma {:induction false} WrittenGrows(env: Env, records: seq<WalRecord>, n: nat)
    requires n <= |records|
    ensures Written(env, records[..n]) <= Written(env, records)
    decreases |records|
  {
    if n > 0 {
      WrittenGrows(env, records[1..], n - 1);
      assert records[..n][1..] == records[1..][..n - 1];
    }
  }
}
