/** Runs of the buffer pool against one flat page memory (storage/buffer_pool.py). */
module PoolRuns {
  import opened Results
  import opened Walks
  import opened LruK
  import opened PoolState

  // ---------------------------------------------------------------- what the operations do

  /** Making room: nothing while there is space, else the eviction of an unpinned frame of lowest key. */
  ghost predicate MakesRoom(c: Shape, s: State, t: State) {
    if |s.frames| < c.capacity then t == s
    else exists v :: Lowest(s.frames, c.k, v, {}) && t == Evicted(c, s, v)
  }

  predicate NoRoom(c: Shape, s: State) {
    |s.frames| >= c.capacity && AllPinned(s.frames)
  }

  predicate Oversized(c: Shape, s: State, id: PageId) {
    id in s.disk && |s.disk[id]| > c.size
  }

  ghost predicate Fetches(c: Shape, s: State, id: PageId, r: Result<Page>, t: State) {
    if id in s.frames then id in s.accesses && t == Pinned(c, s, id) && r == Ok(s.frames[id].data)
    else if NoRoom(c, s) then t == s && r == Err("CDB-7005")
    else if Oversized(c, s, id) then MakesRoom(c, s, t) && r == Err("CDB-7005")
    else exists room :: EntersAfter(c, s, room, id, r, t)
  }

  ghost predicate EntersAfter(c: Shape, s: State, room: State, id: PageId, r: Result<Page>, t: State) {
    var data := OnDisk(room.disk, c.size, id);
    MakesRoom(c, s, room) && t == Entered(c, room, id, data, false) && r == Ok(data)
  }

  ghost predicate Creates(c: Shape, s: State, id: PageId, ok: bool, t: State) {
    if id in s.frames then ok && id in s.accesses && t == Blanked(c, Pinned(c, s, id), id)
    else if NoRoom(c, s) then !ok && t == s
    else ok && exists room :: MakesRoom(c, s, room) && t == Entered(c, room, id, Zeros(c.size), true)
  }

  function Blanked(c: Shape, s: State, id: PageId): State
    requires id in s.frames
  {
    Replaced(s, id, s.frames[id].(data := Zeros(c.size), dirty := true), s.touched - {id})
  }

  function WrittenTo(s: State, id: PageId, data: Page): State
    requires id in s.frames
  {
    var f := s.frames[id];
    Replaced(s, id, f.(data := data), if f.dirty then s.touched else s.touched + {id})
  }

  function DirtyMarked(s: State, id: PageId): State {
    if id !in s.frames then s else Replaced(s, id, s.frames[id].(dirty := true), s.touched - {id})
  }

  function Unpinned(s: State, id: PageId, dirty: bool): State {
    if id !in s.frames || s.frames[id].pins == 0 then s
    else
      var f := s.frames[id];
      Replaced(s, id, f.(pins := f.pins - 1, dirty := dirty || f.dirty), if dirty then s.touched - {id} else s.touched)
  }

  function FlushMany(c: Shape, s: State, order: seq<PageId>): (t: State)
    ensures t.frames.Keys == s.frames.Keys
  {
    if order == [] then s
    else
      var t := FlushMany(c, s, order[..|order| - 1]);
      if order[|order| - 1] in t.frames then Flushed(c, t, order[|order| - 1]) else t
  }

  datatype Op =
    | Fetch(id: PageId, result: Result<Page>)
    | NewPage(id: PageId, ok: bool)
    | Write(id: PageId, data: Page)
    | MarkDirty(id: PageId)
    | Unpin(id: PageId, dirty: bool)
    | FlushPages(order: seq<PageId>)

  ghost predicate Does(c: Shape, s: State, op: Op, t: State) {
    match op
    case Fetch(id, result) => Fetches(c, s, id, result, t)
    case NewPage(id, ok) => Creates(c, s, id, ok, t)
    case Write(id, data) => id in s.frames && t == WrittenTo(s, id, data)
    case MarkDirty(id) => t == DirtyMarked(s, id)
    case Unpin(id, dirty) => t == Unpinned(s, id, dirty)
    case FlushPages(order) => t == FlushMany(c, s, order)
  }

  /**
    Clients write whole pages, only while they hold a pin, and give up the last pin
    on a page they changed as dirty.
    */
  predicate Obeys(c: Shape, s: State, op: Op) {
    match op
    case Write(id, data) => id in s.frames && s.frames[id].pins > 0 && |data| == c.size
    case Unpin(id, dirty) => id in s.touched && id in s.frames && s.frames[id].pins == 1 ==> dirty
    case _ => true
  }

  // ---------------------------------------------------------------- the flat memory

  type Memory = PageId -> Page

  /** The specification: fetches and flushes read, `new_page` clears, writes store. */
  function Apply(c: Shape, memory: Memory, op: Op): Memory {
    match op
    case NewPage(id, true) => (x: PageId) => if x == id then Zeros(c.size) else memory(x)
    case Write(id, data) => (x: PageId) => if x == id then data else memory(x)
    case _ => memory
  }

  ghost predicate Shows(c: Shape, s: State, memory: Memory) {
    forall x: PageId :: Content(c, s, x) == memory(x)
  }

  // ---------------------------------------------------------------- room

  lemma LowestIsVictim(c: Shape, s: State, v: PageId)
    requires Good(c, s) && Lowest(s.frames, c.k, v, {})
    ensures IsVictim(s.frames, s.accesses, c.k, v)
  {
    FitOf(c, Remembers(c.k, s.trace), s, v);
    forall id | id in s.frames && id in s.accesses && id != v && s.frames[id].pins == 0
      ensures KeyLess((KthLatest(s.accesses[v], c.k), Latest(s.accesses[v])),
        (KthLatest(s.accesses[id], c.k), Latest(s.accesses[id])))
    {
      FitOf(c, Remembers(c.k, s.trace), s, id);
      LowestBeats(s.frames, s.accesses, c.k, s.trace, v, id);
    }
  }

  lemma EvictedElsewhere(c: Shape, s: State, v: PageId, x: PageId)
    requires v in s.frames && |s.frames[v].data| == c.size && x != v
    ensures Content(c, Evicted(c, s, v), x) == Content(c, s, x)
  {
    DiskCopy(s.disk, c.size, v, s.frames[v].data, x);
  }

  lemma RoomGood(c: Shape, s: State, t: State, id: PageId)
    requires Good(c, s) && MakesRoom(c, s, t) && id !in s.frames
    ensures Good(c, t) && |t.frames| < c.capacity && id !in t.frames
    ensures c.writer ==> SameMemory(c, s, t)
    ensures Content(c, t, id) == Content(c, s, id)
  {
    if |s.frames| >= c.capacity {
      var v :| Lowest(s.frames, c.k, v, {}) && t == Evicted(c, s, v);
      EvictedGood(c, s, v);
      WholePage(c, s, v);
      EvictedElsewhere(c, s, v, id);
    }
  }

  lemma WholePage(c: Shape, s: State, id: PageId)
    requires Good(c, s) && id in s.frames
    ensures |s.frames[id].data| == c.size
  {
    assert Resident(c, Remembers(c.k, s.trace), s, id);
  }

  ghost predicate OnlyVictim(frames: Frames, accesses: Accesses, k: nat, v: PageId) {
    IsVictim(frames, accesses, k, v) && forall w :: IsVictim(frames, accesses, k, w) ==> w == v
  }

  /** What making room removes is the one LRU-K victim, and nobody's pinned page. */
  lemma RoomTakesVictim(c: Shape, s: State, t: State)
    requires Good(c, s) && MakesRoom(c, s, t)
    ensures |s.frames| < c.capacity ==> t.frames == s.frames
    ensures |s.frames| >= c.capacity ==> exists v ::
      OnlyVictim(s.frames, s.accesses, c.k, v) && t.frames == s.frames - {v}
  {
    if |s.frames| >= c.capacity {
      var v :| Lowest(s.frames, c.k, v, {}) && t == Evicted(c, s, v);
      LowestIsVictim(c, s, v);
      EvictedGood(c, s, v);
      forall w | IsVictim(s.frames, s.accesses, c.k, w)
        ensures w == v
      {
        VictimIsUnique(s.frames, s.accesses, c.k, v, w);
      }
    }
  }

  // ---------------------------------------------------------------- each operation

  /** A correct step: the pool stays sound and its memory changes as the flat one does. */
  ghost predicate Correct(c: Shape, s: State, op: Op, t: State) {
    && Good(c, t)
    && (c.writer ==> match op
                     case NewPage(id, true) => Stores(c, s, t, id, Zeros(c.size))
                     case Write(id, data) => Stores(c, s, t, id, data)
                     case _ => SameMemory(c, s, t))
    && (op.Fetch? && op.result.Ok? ==> op.result.value == Content(c, s, op.id))
  }

  lemma FetchCorrect(c: Shape, s: State, id: PageId, r: Result<Page>, t: State)
    requires Good(c, s) && Fetches(c, s, id, r, t)
    ensures Correct(c, s, Fetch(id, r), t)
  {
    if id in s.frames {
      PinnedGood(c, s, id);
    } else if !NoRoom(c, s) {
      if Oversized(c, s, id) {
        RoomGood(c, s, t, id);
      } else {
        var room :| EntersAfter(c, s, room, id, r, t);
        EnterCorrect(c, s, room, id, r, t);
      }
    }
  }

  lemma EnterCorrect(c: Shape, s: State, room: State, id: PageId, r: Result<Page>, t: State)
    requires Good(c, s) && id !in s.frames && EntersAfter(c, s, room, id, r, t)
    ensures Correct(c, s, Fetch(id, r), t)
  {
    var data := OnDisk(room.disk, c.size, id);
    RoomGood(c, s, room, id);
    EnteredGood(c, room, id, data, false);
    StoresOwn(c, room, t, id);
    if c.writer {
      SameTransitive(c, s, room, t);
    }
  }

  lemma StoresAfterSame(c: Shape, s: State, t: State, u: State, id: PageId, data: Page)
    requires SameMemory(c, s, t) && Stores(c, t, u, id, data)
    ensures Stores(c, s, u, id, data)
  {
    forall x: PageId
      ensures Content(c, u, x) == if x == id then data else Content(c, s, x)
    {
      assert Content(c, t, x) == Content(c, s, x);
    }
  }

  lemma BlankCorrect(c: Shape, s: State, id: PageId)
    requires Good(c, s) && id in s.frames
    ensures Good(c, Blanked(c, Pinned(c, s, id), id))
      && Stores(c, s, Blanked(c, Pinned(c, s, id), id), id, Zeros(c.size))
  {
    var t := Pinned(c, s, id);
    PinnedGood(c, s, id);
    BlankedGood(c, t, id);
    StoresAfterSame(c, s, t, Blanked(c, t, id), id, Zeros(c.size));
  }

  lemma BlankedGood(c: Shape, t: State, id: PageId)
    requires Good(c, t) && id in t.frames
    ensures Good(c, Blanked(c, t, id)) && Stores(c, t, Blanked(c, t, id), id, Zeros(c.size))
  {
    ReplacedGood(c, t, id, t.frames[id].(data := Zeros(c.size), dirty := true), t.touched - {id});
  }

  lemma NewPageCorrect(c: Shape, s: State, id: PageId, ok: bool, t: State)
    requires Good(c, s) && Creates(c, s, id, ok, t)
    ensures Correct(c, s, NewPage(id, ok), t)
  {
    if id in s.frames {
      BlankCorrect(c, s, id);
    } else if ok {
      var room :| MakesRoom(c, s, room) && t == Entered(c, room, id, Zeros(c.size), true);
      RoomGood(c, s, room, id);
      EnteredGood(c, room, id, Zeros(c.size), true);
      if c.writer {
        StoresAfterSame(c, s, room, t, id, Zeros(c.size));
      }
    }
  }

  lemma WriteCorrect(c: Shape, s: State, id: PageId, data: Page)
    requires Good(c, s) && id in s.frames && s.frames[id].pins > 0 && |data| == c.size
    ensures Correct(c, s, Write(id, data), WrittenTo(s, id, data))
  {
    var f := s.frames[id];
    ReplacedGood(c, s, id, f.(data := data), if f.dirty then s.touched else s.touched + {id});
  }

  lemma MarkCorrect(c: Shape, s: State, id: PageId)
    requires Good(c, s)
    ensures Correct(c, s, MarkDirty(id), DirtyMarked(s, id))
  {
    if id in s.frames {
      WholePage(c, s, id);
      ReplacedGood(c, s, id, s.frames[id].(dirty := true), s.touched - {id});
      StoresOwn(c, s, DirtyMarked(s, id), id);
    }
  }

  lemma CleanCopy(c: Shape, s: State, id: PageId)
    requires Good(c, s) && id in s.frames && c.writer && !s.frames[id].dirty && id !in s.touched
    ensures s.frames[id].data == OnDisk(s.disk, c.size, id)
  {
    assert Resident(c, Remembers(c.k, s.trace), s, id);
  }

  lemma UnpinDirtyCorrect(c: Shape, s: State, id: PageId)
    requires Good(c, s) && id in s.frames && s.frames[id].pins > 0
    ensures Correct(c, s, Unpin(id, true), Unpinned(s, id, true))
  {
    var f := s.frames[id];
    WholePage(c, s, id);
    ReplacedGood(c, s, id, f.(pins := f.pins - 1, dirty := true), s.touched - {id});
    StoresOwn(c, s, Unpinned(s, id, true), id);
  }

  lemma UnpinCleanCorrect(c: Shape, s: State, id: PageId)
    requires Good(c, s) && id in s.frames && s.frames[id].pins > 0 && (id in s.touched ==> s.frames[id].pins > 1)
    ensures Correct(c, s, Unpin(id, false), Unpinned(s, id, false))
  {
    var g := s.frames[id].(pins := s.frames[id].pins - 1);
    UnpinnedIs(s, id, g);
    ReleasedGood(c, s, id, g);
    StoresOwn(c, s, Replaced(s, id, g, s.touched), id);
  }

  lemma UnpinnedIs(s: State, id: PageId, g: Frame)
    requires id in s.frames && s.frames[id].pins > 0 && g == s.frames[id].(pins := s.frames[id].pins - 1)
    ensures Unpinned(s, id, false) == Replaced(s, id, g, s.touched)
  {
  }

  lemma ReleasedGood(c: Shape, s: State, id: PageId, g: Frame)
    requires Good(c, s) && id in s.frames && g == s.frames[id].(pins := g.pins) && (id in s.touched ==> g.pins > 0)
    ensures Good(c, Replaced(s, id, g, s.touched)) && Stores(c, s, Replaced(s, id, g, s.touched), id, g.data)
  {
    WholePage(c, s, id);
    if c.writer && !g.dirty && id !in s.touched {
      CleanCopy(c, s, id);
    }
    ReplacedGood(c, s, id, g, s.touched);
  }

  lemma UnpinCorrect(c: Shape, s: State, id: PageId, dirty: bool)
    requires Good(c, s) && Obeys(c, s, Unpin(id, dirty))
    ensures Correct(c, s, Unpin(id, dirty), Unpinned(s, id, dirty))
  {
    if id in s.frames && s.frames[id].pins > 0 {
      if dirty {
        UnpinDirtyCorrect(c, s, id);
      } else {
        UnpinCleanCorrect(c, s, id);
      }
    } else {
      NothingCorrect(c, s, Unpin(id, dirty));
    }
  }

  lemma NothingCorrect(c: Shape, s: State, op: Op)
    requires Good(c, s) && op.Unpin?
    ensures Correct(c, s, op, s)
  {
  }

  lemma {:induction false} FlushCorrect(c: Shape, s: State, order: seq<PageId>)
    requires Good(c, s)
    ensures Correct(c, s, FlushPages(order), FlushMany(c, s, order)) && SameMemory(c, s, FlushMany(c, s, order))
  {
    if order != [] {
      var n := |order| - 1;
      var t := FlushMany(c, s, order[..n]);
      FlushCorrect(c, s, order[..n]);
      if order[n] in t.frames {
        FlushedGood(c, t, order[n]);
        SameTransitive(c, s, t, Flushed(c, t, order[n]));
      }
    }
  }

  /** Every operation a well-behaved client performs is correct. */
  lemma StepCorrect(c: Shape, s: State, op: Op, t: State)
    requires Good(c, s) && Obeys(c, s, op) && Does(c, s, op, t)
    ensures Correct(c, s, op, t)
  {
    match op
    case Fetch(id, r) => FetchCorrect(c, s, id, r, t);
    case NewPage(id, ok) => NewPageCorrect(c, s, id, ok, t);
    case Write(id, data) => WriteCorrect(c, s, id, data);
    case MarkDirty(id) => MarkCorrect(c, s, id);
    case Unpin(id, dirty) => UnpinCorrect(c, s, id, dirty);
    case FlushPages(order) => FlushCorrect(c, s, order);
  }

  // ---------------------------------------------------------------- whole runs

  ghost predicate Run(c: Shape, states: seq<State>, ops: seq<Op>) {
    && |states| == |ops| + 1 && c.capacity > 0 && c.k > 0
    && states[0].frames == map[] && states[0].accesses == map[] && states[0].touched == {}
    && forall i :: 0 <= i < |ops| ==> Does(c, states[i], ops[i], states[i + 1]) && Obeys(c, states[i], ops[i])
  }

  /** The flat memory after the first `n` operations, starting from what the disk held. */
  function MemoryAfter(c: Shape, start: Memory, ops: seq<Op>, n: nat): Memory
    requires n <= |ops|
  {
    if n == 0 then start else Apply(c, MemoryAfter(c, start, ops, n - 1), ops[n - 1])
  }

  lemma ShowsNext(c: Shape, s: State, op: Op, t: State, memory: Memory)
    requires c.writer && Correct(c, s, op, t) && Shows(c, s, memory)
    ensures Shows(c, t, Apply(c, memory, op))
  {
    forall x: PageId
      ensures Content(c, t, x) == Apply(c, memory, op)(x)
    {
      assert Content(c, s, x) == memory(x);
    }
  }

  /** At every point of every run the pool is sound and shows exactly the flat memory. */
  lemma {:induction false} PoolRefinesMemory(c: Shape, states: seq<State>, ops: seq<Op>, start: Memory, n: nat)
    requires Run(c, states, ops) && c.writer && n <= |ops| && Shows(c, states[0], start)
    ensures Good(c, states[n]) && Shows(c, states[n], MemoryAfter(c, start, ops, n))
  {
    if n > 0 {
      PoolRefinesMemory(c, states, ops, start, n - 1);
      StepCorrect(c, states[n - 1], ops[n - 1], states[n]);
      ShowsNext(c, states[n - 1], ops[n - 1], states[n], MemoryAfter(c, start, ops, n - 1));
    }
  }

  /** A fetch returns what was last stored in its page, however often the page has been evicted since. */
  lemma FetchReadsMemory(c: Shape, states: seq<State>, ops: seq<Op>, start: Memory, n: nat)
    requires Run(c, states, ops) && c.writer && n < |ops| && Shows(c, states[0], start)
    requires ops[n].Fetch? && ops[n].result.Ok?
    ensures ops[n].result.value == MemoryAfter(c, start, ops, n)(ops[n].id)
  {
    PoolRefinesMemory(c, states, ops, start, n);
    StepCorrect(c, states[n], ops[n], states[n + 1]);
    assert Content(c, states[n], ops[n].id) == MemoryAfter(c, start, ops, n)(ops[n].id);
  }

  /** Residency never exceeds the capacity, and a pinned page stays resident. */
  lemma PinnedPagesStay(c: Shape, s: State, op: Op, t: State, id: PageId)
    requires Good(c, s) && Obeys(c, s, op) && Does(c, s, op, t)
    requires id in s.frames && s.frames[id].pins > 0
    ensures |t.frames| <= c.capacity && id in t.frames
  {
    StepCorrect(c, s, op, t);
    match op
    case Fetch(x, r) => FetchKeepsPinned(c, s, x, r, t, id);
    case NewPage(x, ok) => CreateKeepsPinned(c, s, x, ok, t, id);
    case _ =>
  }

  lemma RoomKeepsPinned(c: Shape, s: State, t: State, id: PageId)
    requires Good(c, s) && MakesRoom(c, s, t) && id in s.frames && s.frames[id].pins > 0
    ensures id in t.frames
  {
    RoomTakesVictim(c, s, t);
  }

  lemma FetchKeepsPinned(c: Shape, s: State, x: PageId, r: Result<Page>, t: State, id: PageId)
    requires Good(c, s) && Fetches(c, s, x, r, t) && id in s.frames && s.frames[id].pins > 0
    ensures id in t.frames
  {
    if x !in s.frames && !NoRoom(c, s) {
      if Oversized(c, s, x) {
        RoomKeepsPinned(c, s, t, id);
      } else {
        var room :| EntersAfter(c, s, room, x, r, t);
        RoomKeepsPinned(c, s, room, id);
      }
    }
  }

  lemma CreateKeepsPinned(c: Shape, s: State, x: PageId, ok: bool, t: State, id: PageId)
    requires Good(c, s) && Creates(c, s, x, ok, t) && id in s.frames && s.frames[id].pins > 0
    ensures id in t.frames
  {
    if x !in s.frames && !NoRoom(c, s) {
      var room :| MakesRoom(c, s, room) && t == Entered(c, room, x, Zeros(c.size), true);
      RoomKeepsPinned(c, s, room, id);
    }
  }

  /** Without a write callback, evicting a page keeps the memory exactly when its bytes are already on disk. */
  lemma WithoutWriterEvictionForgets(c: Shape, s: State, v: PageId)
    requires Good(c, s) && !c.writer && v in s.frames && s.frames[v].pins == 0
    ensures SameMemory(c, s, Evicted(c, s, v)) <==> s.frames[v].data == OnDisk(s.disk, c.size, v)
  {
    var t := Evicted(c, s, v);
    WholePage(c, s, v);
    assert Content(c, t, v) == OnDisk(s.disk, c.size, v);
    forall x: PageId | x != v
      ensures Content(c, t, x) == Content(c, s, x)
    {
      EvictedElsewhere(c, s, v, x);
    }
  }

  // ---------------------------------------------------------------- a run that loses a write

  ghost predicate Steps(c: Shape, s: State, op: Op, t: State) {
    Does(c, s, op, t) && Obeys(c, s, op)
  }

  function Blank(): State {
    State(map[], map[], map[], [], {})
  }

  lemma FirstFetch(c: Shape) returns (t: State)
    requires c == Shape(1, 1, 1, false)
    ensures Steps(c, Blank(), Fetch(0, Ok(Zeros(1))), t)
    ensures t.frames.Keys == {0} && t.frames[0].pins == 1 && t.disk == map[]
  {
    t := Entered(c, Blank(), 0, OnDisk(map[], 1, 0), false);
    assert OnDisk(map[], 1, 0) == Zeros(1);
    assert EntersAfter(c, Blank(), Blank(), 0, Ok(Zeros(1)), t);
  }

  /** Write page 0, mark it dirty and give up the only pin. */
  lemma WriteAndRelease(c: Shape, s1: State, data: Page) returns (s2: State, s3: State, s4: State)
    requires c == Shape(1, 1, 1, false) && s1.frames.Keys == {0} && s1.frames[0].pins == 1 && s1.disk == map[]
      && |data| == 1
    ensures Steps(c, s1, Write(0, data), s2) && Steps(c, s2, MarkDirty(0), s3) && Steps(c, s3, Unpin(0, true), s4)
    ensures s4.frames.Keys == {0} && s4.frames[0].pins == 0 && s4.disk == map[]
  {
    s2 := WrittenTo(s1, 0, data);
    s3 := DirtyMarked(s2, 0);
    s4 := Unpinned(s3, 0, true);
  }

  lemma SecondFetch(c: Shape, s: State) returns (t: State)
    requires c == Shape(1, 1, 1, false) && s.frames.Keys == {0} && s.frames[0].pins == 0 && s.disk == map[]
    ensures Steps(c, s, Fetch(1, Ok(Zeros(1))), t)
    ensures Content(c, t, 0) == Zeros(1)
  {
    var room := Evicted(c, s, 0);
    t := Entered(c, room, 1, OnDisk(map[], 1, 1), false);
    assert OnDisk(map[], 1, 1) == Zeros(1);
    assert |s.frames| == 1 by {
      assert |s.frames.Keys| == 1;
    }
    assert Lowest(s.frames, 1, 0, {});
    assert EntersAfter(c, s, room, 1, Ok(Zeros(1)), t);
  }

  function LosingOps(data: Page): seq<Op> {
    [Fetch(0, Ok(Zeros(1))), Write(0, data), MarkDirty(0), Unpin(0, true), Fetch(1, Ok(Zeros(1)))]
  }

  lemma LosingRun(c: Shape, data: Page) returns (states: seq<State>)
    requires c == Shape(1, 1, 1, false) && |data| == 1
    ensures |states| == 6 && states[0] == Blank() && Content(c, states[5], 0) == Zeros(1)
    ensures forall i :: 0 <= i < 5 ==> Steps(c, states[i], LosingOps(data)[i], states[i + 1])
  {
    var s1 := FirstFetch(c);
    var s2, s3, s4 := WriteAndRelease(c, s1, data);
    var s5 := SecondFetch(c, s4);
    states := [Blank(), s1, s2, s3, s4, s5];
  }

  lemma BlankShows(c: Shape)
    requires c.size == 1
    ensures Shows(c, Blank(), (id: PageId) => Zeros(1))
  {
  }

  /**
    One frame and no write callback: a page written, marked dirty and released is
    blank again once another is fetched.
    */
  lemma WithoutWriterRunForgets(data: Page) returns (c: Shape, states: seq<State>)
    requires |data| == 1 && data != Zeros(1)
    ensures Run(c, states, LosingOps(data)) && !c.writer && Shows(c, states[0], (id: PageId) => Zeros(1))
    ensures !Shows(c, states[5], MemoryAfter(c, (id: PageId) => Zeros(1), LosingOps(data), 5))
  {
    c := Shape(1, 1, 1, false);
    states := LosingRun(c, data);
    BlankShows(c);
    LastStoreStays(c, (id: PageId) => Zeros(1), LosingOps(data), data, 5);
    assert forall i :: 0 <= i < 5 ==> Steps(c, states[i], LosingOps(data)[i], states[i + 1]);
  }

  /** Nothing after the write at position 1 touches page 0 of the flat memory. */
  lemma {:induction false} LastStoreStays(c: Shape, start: Memory, ops: seq<Op>, data: Page, n: nat)
    requires 2 <= n <= |ops| && ops[1] == Write(0, data) && forall i :: 2 <= i < n ==>
      !ops[i].Write? && !ops[i].NewPage?
    ensures MemoryAfter(c, start, ops, n)(0) == data
  {
    if n > 2 {
      LastStoreStays(c, start, ops, data, n - 1);
    }
  }
}
