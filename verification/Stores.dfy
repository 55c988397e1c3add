/** Append-only, LSN-stamped node and edge stores (storage/node_store.py, storage/edge_store.py, storage/mvcc.py). */
module Stores {
  import opened Results

  type Lsn = nat
  type Cells = seq<string>

  datatype Field = Field(name: string, columnType: string)
  datatype Batch = Batch(fields: seq<Field>, rows: seq<Cells>)

  datatype Kind = Nodes | Edges

  /** A stored row: the id the store gave it, its cells, and its LSN stamps. */
  datatype Row = Row(id: nat, cells: Cells, created: Lsn, deleted: Option<Lsn>)

  datatype Chunk = Chunk(rows: seq<Row>, start: nat, end: nat)

  datatype Store = Store(kind: Kind, fields: seq<Field>, nextId: nat, chunks: seq<Chunk>)

  /** What a scan yields of a row: its id and cells, without the stamps. */
  datatype Public = Public(id: nat, cells: Cells)

  // ---------------------------------------------------------------- visibility

  /** `RowVersion.visible_to`. */
  predicate VisibleTo(created: Lsn, deleted: Option<Lsn>, snapshot: Lsn) {
    if created > snapshot then false else !(deleted.Some? && deleted.value <= snapshot)
  }

  /** The column arithmetic of `_filter_visible` on one row. */
  predicate Passes(row: Row, snapshot: Lsn) {
    var createdOk := row.created <= snapshot;
    var deletedNull := row.deleted == None;
    var deletedAfter := if row.deleted.Some? then row.deleted.value > snapshot else false;
    createdOk && (deletedNull || deletedAfter)
  }

  lemma FilterIsVisibility(row: Row, snapshot: Lsn)
    ensures Passes(row, snapshot) <==> VisibleTo(row.created, row.deleted, snapshot)
    ensures Passes(row, snapshot) <==>
      row.created <= snapshot && forall lsn: Lsn :: row.deleted == Some(lsn) ==> snapshot < lsn
  {
  }

  // ---------------------------------------------------------------- append

  function Empty(kind: Kind): Store {
    Store(kind, [], 0, [])
  }

  predicate HasColumn(fields: seq<Field>, name: string) {
    exists i :: 0 <= i < |fields| && fields[i].name == name
  }

  function IdColumn(kind: Kind): string {
    if kind == Nodes then "nid" else "eid"
  }

  function BadBatch(kind: Kind): string {
    if kind == Nodes then "CDB-7011" else "CDB-7021"
  }

  predicate ReservedColumns(kind: Kind, fields: seq<Field>) {
    HasColumn(fields, IdColumn(kind)) || HasColumn(fields, "_created_lsn") || HasColumn(fields, "_deleted_lsn")
  }

  predicate EndpointsTyped(fields: seq<Field>) {
    && HasColumn(fields, "src") && HasColumn(fields, "dst")
    && forall i :: 0 <= i < |fields| && fields[i].name in ["src", "dst"] ==> fields[i].columnType == "uint64"
  }

  /**
    The checks of `append`: something to append, no store-assigned columns, edge
    endpoints, the first chunk's columns.
    */
  predicate Acceptable(store: Store, batch: Batch) {
    && batch.rows != [] && !ReservedColumns(store.kind, batch.fields)
    && (store.kind == Edges ==> EndpointsTyped(batch.fields))
    && (store.chunks != [] ==> batch.fields == store.fields)
  }

  /** What a store of this kind asks of any batch, said of its rows and columns. */
  ghost predicate WellShaped(kind: Kind, batch: Batch) {
    && |batch.rows| > 0
    && (forall f :: f in batch.fields ==>
          f.name != (if kind == Nodes then "nid" else "eid") && f.name != "_created_lsn" && f.name != "_deleted_lsn")
    && (kind == Edges ==>
          && (exists f :: f in batch.fields && f.name == "src") && (exists f :: f in batch.fields && f.name == "dst")
          && forall f :: f in batch.fields && (f.name == "src" || f.name == "dst") ==> f.columnType == "uint64")
  }

  lemma AcceptableIff(store: Store, batch: Batch)
    ensures Acceptable(store, batch)
       <==> WellShaped(store.kind, batch) && (|store.chunks| > 0 ==> batch.fields == store.fields)
  {
    HasColumnIff(batch.fields, IdColumn(store.kind));
    HasColumnIff(batch.fields, "_created_lsn");
    HasColumnIff(batch.fields, "_deleted_lsn");
    HasColumnIff(batch.fields, "src");
    HasColumnIff(batch.fields, "dst");
  }

  lemma HasColumnIff(fields: seq<Field>, name: string)
    ensures HasColumn(fields, name) <==> exists f :: f in fields && f.name == name
  {
    if HasColumn(fields, name) {
      var i :| 0 <= i < |fields| && fields[i].name == name;
      assert fields[i] in fields;
    }
  }

  /** The batch as one more chunk: consecutive ids from the next one on, one LSN, nothing deleted. */
  ghost predicate AddedTo(before: Store, batch: Batch, lsn: Lsn, after: Store) {
    && after.kind == before.kind && after.fields == batch.fields && after.nextId == before.nextId + |batch.rows|
    && |after.chunks| == |before.chunks| + 1 && before.chunks <= after.chunks
    && var chunk := after.chunks[|before.chunks|];
    && chunk.start == before.nextId && chunk.end == after.nextId && |chunk.rows| == |batch.rows|
    && forall i :: 0 <= i < |batch.rows| ==> chunk.rows[i] == Row(before.nextId + i, batch.rows[i], lsn, None)
  }

  lemma AppendIsAdded(store: Store, batch: Batch, lsn: Lsn)
    requires Append(store, batch, lsn).Ok?
    ensures AddedTo(store, batch, lsn, Append(store, batch, lsn).value)
  {
  }

  /** Consecutive ids from `start`, all stamped with one LSN. */
  function Stamp(rows: seq<Cells>, start: nat, lsn: Lsn): (out: seq<Row>)
    ensures |out| == |rows|
    ensures forall i :: 0 <= i < |rows| ==> out[i] == Row(start + i, rows[i], lsn, None)
  {
    seq(|rows|, i requires 0 <= i < |rows| => Row(start + i, rows[i], lsn, None))
  }

  function Append(store: Store, batch: Batch, lsn: Lsn): Result<Store> {
    if !Acceptable(store, batch) then Err(BadBatch(store.kind))
    else
      var end := store.nextId + |batch.rows|;
      var chunk := Chunk(Stamp(batch.rows, store.nextId, lsn), store.nextId, end);
      Ok(store.(fields := if store.chunks == [] then batch.fields else store.fields,
                nextId := end, chunks := store.chunks + [chunk]))
  }

  // ---------------------------------------------------------------- scans

  function PublicOf(row: Row): Public {
    Public(row.id, row.cells)
  }

  function Shown(rows: seq<Row>, snapshot: Option<Lsn>): seq<Public> {
    if rows == [] then []
    else
      var n := |rows| - 1;
      Shown(rows[..n], snapshot) + if snapshot.None? || Passes(rows[n], snapshot.value) then [PublicOf(rows[n])] else []
  }

  /** Every visible row of every chunk, in storage order. */
  function Scanned(chunks: seq<Chunk>, snapshot: Option<Lsn>): seq<Public> {
    if chunks == [] then [] else Scanned(chunks[..|chunks| - 1], snapshot) + Shown(chunks[|chunks| - 1].rows, snapshot)
  }

  /** `_filter_visible` and the projection, on one chunk. */
  method FilterChunk(rows: seq<Row>, snapshot: Option<Lsn>) returns (out: seq<Public>)
    ensures out == Shown(rows, snapshot)
  {
    out := [];
    for i := 0 to |rows|
      invariant out == Shown(rows[..i], snapshot)
    {
      assert rows[..i + 1][..i] == rows[..i];
      if snapshot.None? || Passes(rows[i], snapshot.value) {
        out := out + [PublicOf(rows[i])];
      }
    }
    assert rows[..|rows|] == rows;
  }

  /** `scan`, chunk after chunk. */
  method Scan(store: Store, snapshot: Option<Lsn>) returns (out: seq<Public>)
    ensures out == Scanned(store.chunks, snapshot)
  {
    out := [];
    for i := 0 to |store.chunks|
      invariant out == Scanned(store.chunks[..i], snapshot)
    {
      assert store.chunks[..i + 1][..i] == store.chunks[..i];
      var part := FilterChunk(store.chunks[i].rows, snapshot);
      out := out + part;
    }
    assert store.chunks[..|store.chunks|] == store.chunks;
  }

  // ---------------------------------------------------------------- stamps and scans

  /** Rows nobody deleted, created at or before `lsn`. */
  ghost predicate AllBy(chunk: Chunk, lsn: Lsn) {
    forall i :: 0 <= i < |chunk.rows| ==> chunk.rows[i].created <= lsn && chunk.rows[i].deleted == None
  }

  lemma {:induction false} OldRowsShow(rows: seq<Row>, lsn: Lsn)
    requires forall i :: 0 <= i < |rows| ==> rows[i].created <= lsn && rows[i].deleted == None
    ensures Shown(rows, Some(lsn)) == Shown(rows, None)
  {
    if rows != [] {
      OldRowsShow(rows[..|rows| - 1], lsn);
    }
  }

  lemma {:induction false} NewRowsHide(rows: seq<Row>, lsn: Lsn)
    requires forall i :: 0 <= i < |rows| ==> rows[i].created > lsn
    ensures Shown(rows, Some(lsn)) == []
  {
    if rows != [] {
      NewRowsHide(rows[..|rows| - 1], lsn);
    }
  }

  ghost predicate StampedBy(chunks: seq<Chunk>, lsn: Lsn) {
    forall i :: 0 <= i < |chunks| ==> AllBy(chunks[i], lsn)
  }

  lemma {:induction false} OldChunksShow(chunks: seq<Chunk>, lsn: Lsn)
    requires StampedBy(chunks, lsn)
    ensures Scanned(chunks, Some(lsn)) == Scanned(chunks, None)
  {
    if chunks != [] {
      OldChunksShow(chunks[..|chunks| - 1], lsn);
      assert AllBy(chunks[|chunks| - 1], lsn);
      OldRowsShow(chunks[|chunks| - 1].rows, lsn);
    }
  }

  lemma ScannedSnoc(chunks: seq<Chunk>, chunk: Chunk, snapshot: Option<Lsn>)
    ensures Scanned(chunks + [chunk], snapshot) == Scanned(chunks, snapshot) + Shown(chunk.rows, snapshot)
  {
    assert (chunks + [chunk])[..|chunks|] == chunks;
  }

  /** An append under a later LSN is invisible at `lsn`, whatever else it does. */
  lemma LaterAppendHidden(store: Store, batch: Batch, later: Lsn, lsn: Lsn)
    requires later > lsn && Append(store, batch, later).Ok?
    ensures Scanned(Append(store, batch, later).value.chunks, Some(lsn)) == Scanned(store.chunks, Some(lsn))
  {
    var rows := Stamp(batch.rows, store.nextId, later);
    NewRowsHide(rows, lsn);
    ScannedSnoc(store.chunks, Chunk(rows, store.nextId, store.nextId + |batch.rows|), Some(lsn));
  }

  lemma AppendStamps(store: Store, batch: Batch, lsn: Lsn)
    requires StampedBy(store.chunks, lsn) && Append(store, batch, lsn).Ok?
    ensures StampedBy(Append(store, batch, lsn).value.chunks, lsn)
  {
  }

  lemma StampedLater(chunks: seq<Chunk>, lsn: Lsn, later: Lsn)
    requires StampedBy(chunks, lsn) && lsn <= later
    ensures StampedBy(chunks, later)
  {
    forall i | 0 <= i < |chunks|
      ensures AllBy(chunks[i], later)
    {
      assert AllBy(chunks[i], lsn);
    }
  }

  // ---------------------------------------------------------------- ids

  /** Ids count the rows: row `i` of the store has id `i`. */
  ghost predicate Numbered(store: Store) {
    var all := Scanned(store.chunks, None);
    |all| == store.nextId && forall i :: 0 <= i < |all| ==> all[i].id == i
  }

  lemma {:induction false} ShownAll(rows: seq<Row>)
    ensures |Shown(rows, None)| == |rows|
    ensures forall i :: 0 <= i < |rows| ==> Shown(rows, None)[i] == PublicOf(rows[i])
  {
    if rows != [] {
      ShownAll(rows[..|rows| - 1]);
    }
  }

  /** The batch as it will be read back. */
  function Added(rows: seq<Cells>, start: nat): (out: seq<Public>)
    ensures |out| == |rows| && forall i :: 0 <= i < |rows| ==> out[i] == Public(start + i, rows[i])
  {
    seq(|rows|, i requires 0 <= i < |rows| => Public(start + i, rows[i]))
  }

  /** A successful append adds exactly the batch, in order, under fresh consecutive ids. */
  lemma AppendAdds(store: Store, batch: Batch, lsn: Lsn)
    requires Append(store, batch, lsn).Ok?
    ensures Scanned(Append(store, batch, lsn).value.chunks, None)
      == Scanned(store.chunks, None) + Added(batch.rows, store.nextId)
  {
    var chunk := AppendedChunk(store, batch, lsn);
    ScannedSnoc(store.chunks, chunk, None);
    StampShown(batch.rows, store.nextId, lsn);
  }

  lemma AppendedChunk(store: Store, batch: Batch, lsn: Lsn) returns (chunk: Chunk)
    requires Append(store, batch, lsn).Ok?
    ensures Append(store, batch, lsn).value.chunks == store.chunks + [chunk]
    ensures chunk.rows == Stamp(batch.rows, store.nextId, lsn)
  {
    chunk := Chunk(Stamp(batch.rows, store.nextId, lsn), store.nextId, store.nextId + |batch.rows|);
  }

  lemma StampShown(rows: seq<Cells>, start: nat, lsn: Lsn)
    ensures Shown(Stamp(rows, start, lsn), None) == Added(rows, start)
  {
    var stamped := Stamp(rows, start, lsn);
    ShownAll(stamped);
    forall i | 0 <= i < |rows|
      ensures Shown(stamped, None)[i] == Added(rows, start)[i]
    {
      assert stamped[i] == Row(start + i, rows[i], lsn, None);
    }
  }

  lemma AppendNumbers(store: Store, batch: Batch, lsn: Lsn)
    requires Numbered(store) && Append(store, batch, lsn).Ok?
    ensures Numbered(Append(store, batch, lsn).value)
  {
    AppendAdds(store, batch, lsn);
  }
}
