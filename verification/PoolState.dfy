/** The buffer pool's state and the effect of each operation on it (storage/buffer_pool.py). */
module PoolState {
  import opened LruK

  datatype Shape = Shape(capacity: nat, size: nat, k: nat, writer: bool)

  /**
    `trace` lists the page of every access, so the clock reads its length;
    `touched` the clean pages a client has written to and not yet marked dirty.
    */
  datatype State = State(frames: Frames, disk: map<PageId, Page>, accesses: Accesses, trace: seq<PageId>,
                         touched: set<PageId>)

  function Zeros(n: nat): (z: Page)
    ensures |z| == n
  {
    if n == 0 then [] else Zeros(n - 1) + [0]
  }

  /** A page as read from disk: padded with zeros to the page size. */
  function Padded(data: Page, size: nat): (p: Page)
    requires |data| <= size
    ensures |p| == size
  {
    data + Zeros(size - |data|)
  }

  function OnDisk(disk: map<PageId, Page>, size: nat, id: PageId): (p: Page)
    ensures |p| == size
  {
    if id in disk && |disk[id]| <= size then Padded(disk[id], size) else Padded([], size)
  }

  /** The flat memory the pool stands for: the frame's bytes if resident, else the disk's. */
  function Content(c: Shape, s: State, id: PageId): Page {
    if id in s.frames then s.frames[id].data else OnDisk(s.disk, c.size, id)
  }

  ghost predicate SameMemory(c: Shape, s: State, t: State) {
    forall id: PageId :: Content(c, t, id) == Content(c, s, id)
  }

  /** The memory differs at most at `id`, where it now holds `data`. */
  ghost predicate Stores(c: Shape, s: State, t: State, id: PageId, data: Page) {
    forall x: PageId :: Content(c, t, x) == if x == id then data else Content(c, s, x)
  }

  /** Whether a page's frame and access log belong together. */
  type Fit = (PageId, Frame, seq<nat>) -> bool

  /**
    One resident page: whole, with a fitting history; pinned as long as a client's
    write awaits its dirty mark; and, if clean, equal to its copy on disk.
    */
  ghost predicate PageOk(c: Shape, fit: Fit, id: PageId, f: Frame, log: seq<nat>, held: bool, copy: Page) {
    && |f.data| == c.size && fit(id, f, log)
    && (held ==> f.pins > 0)
    && (c.writer && !f.dirty && !held ==> f.data == copy)
  }

  ghost predicate Resident(c: Shape, fit: Fit, s: State, id: PageId)
    requires id in s.frames && id in s.accesses
  {
    PageOk(c, fit, id, s.frames[id], s.accesses[id], id in s.touched, OnDisk(s.disk, c.size, id))
  }

  ghost predicate Sound(c: Shape, fit: Fit, s: State) {
    && c.capacity > 0 && |s.frames| <= c.capacity
    && s.accesses.Keys == s.frames.Keys && s.touched <= s.frames.Keys
    && forall id :: id in s.frames ==> Resident(c, fit, s, id)
  }

  /** A frame remembers the last `k` accesses of its page, and the latest is one of the trace's. */
  ghost function Remembers(k: nat, trace: seq<PageId>): Fit {
    (id: PageId, f: Frame, log: seq<nat>) => FrameOk(id, f, log, k, trace)
  }

  ghost predicate Good(c: Shape, s: State) {
    c.k > 0 && Sound(c, Remembers(c.k, s.trace), s)
  }

  /** Nothing but the capacity is asked of the fit of the other pages. */
  ghost predicate Carries(fit: Fit, fit': Fit) {
    forall x, f, log :: fit(x, f, log) ==> fit'(x, f, log)
  }

  /** Pins, dirtiness and bytes do not matter to the fit. */
  ghost predicate HistoryOnly(fit: Fit) {
    forall x, f: Frame, g: Frame, log :: fit(x, f, log) && g.history == f.history ==> fit(x, g, log)
  }

  lemma RemembersHistory(k: nat, trace: seq<PageId>)
    ensures HistoryOnly(Remembers(k, trace))
  {
  }

  lemma FitOf(c: Shape, fit: Fit, s: State, id: PageId)
    requires Sound(c, fit, s) && id in s.frames
    ensures fit(id, s.frames[id], s.accesses[id])
  {
    assert Resident(c, fit, s, id);
  }

  lemma RemembersTouch(k: nat, trace: seq<PageId>, id: PageId, f: Frame, log: seq<nat>)
    requires k > 0 && Remembers(k, trace)(id, f, log)
    ensures Remembers(k, trace + [id])(id, Touched(f, |trace| + 1, k), log + [|trace| + 1])
  {
    TouchKeepsFrame(id, f, log, k, trace);
  }

  lemma RemembersLater(k: nat, trace: seq<PageId>, y: PageId)
    ensures Carries(Remembers(k, trace), Remembers(k, trace + [y]))
  {
    forall x, f, log | Remembers(k, trace)(x, f, log)
      ensures Remembers(k, trace + [y])(x, f, log)
    {
      Later(x, f, log, k, trace, y);
    }
  }

  lemma SizeAfter(frames: Frames, id: PageId, f: Frame)
    ensures |frames[id := f]| == if id in frames then |frames| else |frames| + 1
  {
    assert frames[id := f].Keys == frames.Keys + {id};
    assert id in frames ==> frames.Keys + {id} == frames.Keys;
  }

  // ---------------------------------------------------------------- one frame set to a new value

  /** `t` is `s` with frame `id` set to `f`, whatever that does to its history. */
  ghost predicate Sets(s: State, t: State, id: PageId, f: Frame) {
    && t.frames == s.frames[id := f] && t.disk == s.disk
    && t.accesses.Keys == t.frames.Keys && t.touched <= t.frames.Keys
    && forall x :: x in s.frames && x != id ==>
          x in s.accesses && x in t.accesses && t.accesses[x] == s.accesses[x] && (x in t.touched <==> x in s.touched)
  }

  lemma SetsStores(c: Shape, s: State, t: State, id: PageId, f: Frame)
    requires Sets(s, t, id, f)
    ensures Stores(c, s, t, id, f.data)
  {
  }

  lemma SetsSound(c: Shape, fit: Fit, fit': Fit, s: State, t: State, id: PageId, f: Frame)
    requires Sound(c, fit, s) && Sets(s, t, id, f) && (id in s.frames || |s.frames| < c.capacity) && Carries(fit, fit')
    requires PageOk(c, fit', id, f, t.accesses[id], id in t.touched, OnDisk(s.disk, c.size, id))
    ensures Sound(c, fit', t)
  {
    SizeAfter(s.frames, id, f);
    forall x | x in t.frames
      ensures Resident(c, fit', t, x)
    {
      if x != id {
        assert Resident(c, fit, s, x);
      }
    }
  }

  lemma StoresOwn(c: Shape, s: State, t: State, id: PageId)
    requires Stores(c, s, t, id, Content(c, s, id))
    ensures SameMemory(c, s, t)
  {
  }

  // ---------------------------------------------------------------- accesses

  function Pinned(c: Shape, s: State, id: PageId): State
    requires id in s.frames && id in s.accesses
  {
    var f, now := s.frames[id], |s.trace| + 1;
    s.(frames := s.frames[id := Touched(f, now, c.k).(pins := f.pins + 1)],
       accesses := s.accesses[id := s.accesses[id] + [now]], trace := s.trace + [id])
  }

  lemma PinnedSound(c: Shape, fit: Fit, fit': Fit, s: State, id: PageId)
    requires Sound(c, fit, s) && id in s.frames && Carries(fit, fit') && HistoryOnly(fit')
    requires fit'(id, Touched(s.frames[id], |s.trace| + 1, c.k), s.accesses[id] + [|s.trace| + 1])
    ensures Sound(c, fit', Pinned(c, s, id)) && SameMemory(c, s, Pinned(c, s, id))
  {
    var t := Pinned(c, s, id);
    assert Resident(c, fit, s, id);
    assert Sets(s, t, id, t.frames[id]);
    SetsSound(c, fit, fit', s, t, id, t.frames[id]);
    SetsStores(c, s, t, id, t.frames[id]);
    StoresOwn(c, s, t, id);
  }

  lemma PinnedGood(c: Shape, s: State, id: PageId)
    requires Good(c, s) && id in s.frames
    ensures Good(c, Pinned(c, s, id)) && SameMemory(c, s, Pinned(c, s, id))
  {
    FitOf(c, Remembers(c.k, s.trace), s, id);
    RemembersTouch(c.k, s.trace, id, s.frames[id], s.accesses[id]);
    RemembersLater(c.k, s.trace, id);
    RemembersHistory(c.k, s.trace + [id]);
    PinnedSound(c, Remembers(c.k, s.trace), Remembers(c.k, s.trace + [id]), s, id);
  }

  function Entered(c: Shape, s: State, id: PageId, data: Page, dirty: bool): State {
    var now := |s.trace| + 1;
    s.(frames := s.frames[id := Frame(data, 1, dirty, [now])], accesses := s.accesses[id := [now]],
       trace := s.trace + [id])
  }

  lemma EnteredSound(c: Shape, fit: Fit, fit': Fit, s: State, id: PageId, data: Page, dirty: bool)
    requires Sound(c, fit, s) && id !in s.frames && |s.frames| < c.capacity && |data| == c.size
    requires dirty || data == OnDisk(s.disk, c.size, id)
    requires Carries(fit, fit') && fit'(id, Frame(data, 1, dirty, [|s.trace| + 1]), [|s.trace| + 1])
    ensures Sound(c, fit', Entered(c, s, id, data, dirty)) && Stores(c, s, Entered(c, s, id, data, dirty), id, data)
  {
    var t := Entered(c, s, id, data, dirty);
    assert Sets(s, t, id, t.frames[id]);
    SetsSound(c, fit, fit', s, t, id, t.frames[id]);
    SetsStores(c, s, t, id, t.frames[id]);
  }

  lemma EnteredGood(c: Shape, s: State, id: PageId, data: Page, dirty: bool)
    requires Good(c, s) && id !in s.frames && |s.frames| < c.capacity && |data| == c.size
    requires dirty || data == OnDisk(s.disk, c.size, id)
    ensures Good(c, Entered(c, s, id, data, dirty)) && Stores(c, s, Entered(c, s, id, data, dirty), id, data)
  {
    RemembersLater(c.k, s.trace, id);
    EnteredSound(c, Remembers(c.k, s.trace), Remembers(c.k, s.trace + [id]), s, id, data, dirty);
  }

  // ---------------------------------------------------------------- client writes and dirty marks

  /** One frame replaced by one with the same history. */
  function Replaced(s: State, id: PageId, f: Frame, touched: set<PageId>): State {
    s.(frames := s.frames[id := f], touched := touched)
  }

  lemma ReplacedSound(c: Shape, fit: Fit, s: State, id: PageId, f: Frame, touched: set<PageId>)
    requires Sound(c, fit, s) && HistoryOnly(fit) && id in s.frames && f.history == s.frames[id].history
      && |f.data| == c.size
    requires touched <= s.frames.Keys && forall x :: x in s.frames && x != id ==> (x in touched <==> x in s.touched)
    requires id in touched ==> f.pins > 0
    requires c.writer && !f.dirty && id !in touched ==> f.data == OnDisk(s.disk, c.size, id)
    ensures Sound(c, fit, Replaced(s, id, f, touched)) && Stores(c, s, Replaced(s, id, f, touched), id, f.data)
  {
    var t := Replaced(s, id, f, touched);
    assert Resident(c, fit, s, id);
    assert Sets(s, t, id, f);
    SetsSound(c, fit, fit, s, t, id, f);
    SetsStores(c, s, t, id, f);
  }

  lemma ReplacedGood(c: Shape, s: State, id: PageId, f: Frame, touched: set<PageId>)
    requires Good(c, s) && id in s.frames && f.history == s.frames[id].history && |f.data| == c.size
    requires touched <= s.frames.Keys && forall x :: x in s.frames && x != id ==> (x in touched <==> x in s.touched)
    requires id in touched ==> f.pins > 0
    requires c.writer && !f.dirty && id !in touched ==> f.data == OnDisk(s.disk, c.size, id)
    ensures Good(c, Replaced(s, id, f, touched)) && Stores(c, s, Replaced(s, id, f, touched), id, f.data)
  {
    RemembersHistory(c.k, s.trace);
    ReplacedSound(c, Remembers(c.k, s.trace), s, id, f, touched);
  }

  // ---------------------------------------------------------------- write-back

  function Flushed(c: Shape, s: State, id: PageId): State
    requires id in s.frames
  {
    var f := s.frames[id];
    if !f.dirty then s
    else s.(frames := s.frames[id := f.(dirty := false)], disk := if c.writer then s.disk[id := f.data] else s.disk)
  }

  lemma DiskCopy(disk: map<PageId, Page>, size: nat, id: PageId, data: Page, x: PageId)
    requires |data| == size
    ensures OnDisk(disk[id := data], size, x) == if x == id then data else OnDisk(disk, size, x)
  {
    assert Padded(data, size) == data;
  }

  lemma FlushedSound(c: Shape, fit: Fit, s: State, id: PageId)
    requires Sound(c, fit, s) && id in s.frames && HistoryOnly(fit)
    ensures Sound(c, fit, Flushed(c, s, id)) && SameMemory(c, s, Flushed(c, s, id))
    ensures Flushed(c, s, id).frames == s.frames[id := s.frames[id].(dirty := false)]
  {
    var t := Flushed(c, s, id);
    assert Resident(c, fit, s, id);
    SizeAfter(s.frames, id, s.frames[id].(dirty := false));
    forall x | x in t.frames
      ensures Resident(c, fit, t, x)
    {
      assert Resident(c, fit, s, x);
      FlushedResident(c, fit, s, id, x);
    }
    FlushedSame(c, s, id);
  }

  lemma FlushedResident(c: Shape, fit: Fit, s: State, id: PageId, x: PageId)
    requires id in s.frames && x in s.frames && x in s.accesses && |s.frames[id].data| == c.size
    requires Resident(c, fit, s, x) && HistoryOnly(fit)
    ensures Resident(c, fit, Flushed(c, s, id), x)
  {
    DiskCopy(s.disk, c.size, id, s.frames[id].data, x);
  }

  lemma FlushedSame(c: Shape, s: State, id: PageId)
    requires id in s.frames && |s.frames[id].data| == c.size
    ensures SameMemory(c, s, Flushed(c, s, id))
  {
    forall x: PageId
      ensures Content(c, Flushed(c, s, id), x) == Content(c, s, x)
    {
      DiskCopy(s.disk, c.size, id, s.frames[id].data, x);
    }
  }

  function Removed(t: State, v: PageId): State {
    t.(frames := t.frames - {v}, accesses := t.accesses - {v})
  }

  lemma RemovedSound(c: Shape, fit: Fit, t: State, v: PageId)
    requires Sound(c, fit, t) && v in t.frames && !t.frames[v].dirty && t.frames[v].pins == 0
    ensures Sound(c, fit, Removed(t, v)) && |Removed(t, v).frames| == |t.frames| - 1
    ensures c.writer ==> SameMemory(c, t, Removed(t, v))
  {
    var u := Removed(t, v);
    assert Resident(c, fit, t, v);
    assert u.frames.Keys == t.frames.Keys - {v} && u.accesses.Keys == t.accesses.Keys - {v};
    forall x | x in u.frames
      ensures Resident(c, fit, u, x)
    {
      assert Resident(c, fit, t, x);
    }
  }

  function Evicted(c: Shape, s: State, v: PageId): State
    requires v in s.frames
  {
    Removed(Flushed(c, s, v), v)
  }

  lemma SameTransitive(c: Shape, s: State, t: State, u: State)
    requires SameMemory(c, s, t) && SameMemory(c, t, u)
    ensures SameMemory(c, s, u)
  {
    forall id: PageId
      ensures Content(c, u, id) == Content(c, s, id)
    {
      assert Content(c, u, id) == Content(c, t, id);
    }
  }

  lemma EvictedSound(c: Shape, fit: Fit, s: State, v: PageId)
    requires Sound(c, fit, s) && v in s.frames && s.frames[v].pins == 0 && HistoryOnly(fit)
    ensures Sound(c, fit, Evicted(c, s, v)) && |Evicted(c, s, v).frames| == |s.frames| - 1
    ensures c.writer ==> SameMemory(c, s, Evicted(c, s, v))
    ensures Evicted(c, s, v).frames == s.frames - {v}
  {
    var t := Flushed(c, s, v);
    FlushedSound(c, fit, s, v);
    SizeAfter(s.frames, v, s.frames[v].(dirty := false));
    RemovedSound(c, fit, t, v);
    if c.writer {
      SameTransitive(c, s, t, Removed(t, v));
    }
    MinusUpdated(s.frames, v, s.frames[v].(dirty := false));
  }

  lemma MinusUpdated(frames: Frames, v: PageId, f: Frame)
    ensures frames[v := f] - {v} == frames - {v}
  {
  }

  /** Writing a page back changes no page of the memory. */
  lemma FlushedGood(c: Shape, s: State, id: PageId)
    requires Good(c, s) && id in s.frames
    ensures Good(c, Flushed(c, s, id)) && SameMemory(c, s, Flushed(c, s, id))
    ensures Flushed(c, s, id).frames == s.frames[id := s.frames[id].(dirty := false)]
  {
    RemembersHistory(c.k, s.trace);
    FlushedSound(c, Remembers(c.k, s.trace), s, id);
  }

  /** Evicting an unpinned page changes no page of the memory, provided dirty pages can be written back. */
  lemma EvictedGood(c: Shape, s: State, v: PageId)
    requires Good(c, s) && v in s.frames && s.frames[v].pins == 0
    ensures Good(c, Evicted(c, s, v)) && |Evicted(c, s, v).frames| == |s.frames| - 1
    ensures c.writer ==> SameMemory(c, s, Evicted(c, s, v))
    ensures Evicted(c, s, v).frames == s.frames - {v}
  {
    RemembersHistory(c.k, s.trace);
    EvictedSound(c, Remembers(c.k, s.trace), s, v);
  }
}
