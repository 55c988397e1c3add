/** The buffer pool object (storage/buffer_pool.py): its methods perform the operations of `PoolRuns`. */
module BufferPool {
  import opened Results
  import opened Walks
  import opened LruK
  import opened PoolState
  import opened PoolRuns
  import opened PoolPins

  class Pool {
    const shape: Shape
    var frames: Frames
    var disk: map<PageId, Page>
    var clock: nat
    var hits: nat
    var misses: nat
    var evictions: nat
    ghost var accesses: Accesses
    ghost var trace: seq<PageId>
    ghost var touched: set<PageId>

    ghost function Now(): State
      reads this
    {
      State(frames, disk, accesses, trace, touched)
    }

    /** The records kept for the specification are in step with the fields. */
    ghost predicate Valid()
      reads this
    {
      shape.capacity > 0 && shape.k > 0 && clock == |trace| && accesses.Keys == frames.Keys
    }

    constructor (shape: Shape, disk: map<PageId, Page>)
      requires shape.capacity > 0 && shape.k > 0
      ensures Valid() && this.shape == shape && Now() == State(map[], disk, map[], [], {})
    {
      this.shape := shape;
      frames, this.disk, clock := map[], disk, 0;
      hits, misses, evictions := 0, 0, 0;
      accesses, trace, touched := map[], [], {};
    }

    /** `_pin`: one more pin, and the access recorded. */
    method Pin(id: PageId)
      requires Valid() && id in frames
      modifies this`frames, this`clock, this`accesses, this`trace
      ensures Valid() && Now() == Pinned(shape, old(Now()), id)
    {
      clock := clock + 1;
      accesses, trace := accesses[id := accesses[id] + [clock]], trace + [id];
      frames := frames[id := Touched(frames[id], clock, shape.k).(pins := frames[id].pins + 1)];
    }

    /** A new frame with one pin and its first access. */
    method Insert(id: PageId, data: Page, dirty: bool)
      requires Valid()
      modifies this`frames, this`clock, this`accesses, this`trace
      ensures Valid() && Now() == Entered(shape, old(Now()), id, data, dirty)
    {
      clock := clock + 1;
      accesses, trace := accesses[id := [clock]], trace + [id];
      FirstAccess(clock, shape.k);
      frames := frames[id := Frame(data, 1, dirty, Remember([], clock, shape.k))];
    }

    /** `_flush_frame`. */
    method FlushFrame(id: PageId)
      requires Valid() && id in frames
      modifies this`frames, this`disk
      ensures Valid() && Now() == Flushed(shape, old(Now()), id)
    {
      if frames[id].dirty {
        if shape.writer {
          disk := disk[id := frames[id].data];
        }
        frames := frames[id := frames[id].(dirty := false)];
      }
    }

    /** `_ensure_capacity`; fails, changing nothing, when the pool is full of pinned pages. */
    method EnsureCapacity() returns (ok: bool)
      requires Valid()
      modifies this`frames, this`disk, this`accesses, this`evictions
      ensures Valid() && (ok <==> !NoRoom(shape, old(Now())))
      ensures if ok then MakesRoom(shape, old(Now()), Now()) else Now() == old(Now())
    {
      if |frames| < shape.capacity {
        return true;
      }
      var v;
      ok, v := LowestKey(frames, shape.k);
      if ok {
        FlushFrame(v);
        frames, accesses := frames - {v}, accesses - {v};
        evictions := evictions + 1;
        assert Now() == Evicted(shape, old(Now()), v);
      }
    }

    /** `fetch_page`: on success one more pin on the page, and no other pin moved. */
    method FetchPage(id: PageId) returns (r: Result<Page>)
      requires Valid()
      modifies this
      ensures Valid() && Does(shape, old(Now()), Fetch(id, r), Now())
      ensures hits + misses == old(hits + misses) + 1 && (hits > old(hits) <==> id in old(frames))
      ensures r.Ok? ==> id in frames && frames[id].pins == (if id in old(frames) then old(frames)[id].pins else 0) + 1
      ensures PinsElsewhere(old(Now()), Now(), id) && (r.Err? ==> PinsOf(Now(), id) == old(PinsOf(Now(), id)))
      ensures r.Ok? ==> r.value == frames[id].data
    {
      ghost var s := Now();
      r := Obtain(id);
      OnePinMoves(shape, s, Fetch(id, r), Now());
    }

    /** A hit is pinned; a miss makes room and reads the page. */
    method Obtain(id: PageId) returns (r: Result<Page>)
      requires Valid()
      modifies this
      ensures Valid() && Does(shape, old(Now()), Fetch(id, r), Now())
      ensures hits + misses == old(hits + misses) + 1 && (hits > old(hits) <==> id in old(frames))
      ensures r.Ok? ==> id in frames && r.value == frames[id].data
    {
      if id in frames {
        hits := hits + 1;
        Pin(id);
        return Ok(frames[id].data);
      }
      misses := misses + 1;
      ghost var s := Now();
      var ok := EnsureCapacity();
      if !ok {
        return Err("CDB-7005");
      }
      ghost var room := Now();
      RoomKeepsOthersOnDisk(shape, s, room, id);
      if id in disk && |disk[id]| > shape.size {
        return Err("CDB-7005");
      }
      var data := if id in disk then Padded(disk[id], shape.size) else Padded([], shape.size);
      Insert(id, data, false);
      r := Ok(data);
      assert EntersAfter(shape, s, room, id, r, Now());
    }

    /** `new_page_at`: a zeroed page with one more pin, and no other pin moved. */
    method NewPageAt(id: PageId) returns (ok: bool)
      requires Valid()
      modifies this
      ensures Valid() && Does(shape, old(Now()), NewPage(id, ok), Now())
      ensures ok ==> id in frames && frames[id].pins == (if id in old(frames) then old(frames)[id].pins else 0) + 1
      ensures ok ==> frames[id].data == Zeros(shape.size) && frames[id].dirty
      ensures PinsElsewhere(old(Now()), Now(), id) && (!ok ==> PinsOf(Now(), id) == old(PinsOf(Now(), id)))
    {
      ghost var s := Now();
      ok := ObtainBlank(id);
      OnePinMoves(shape, s, NewPage(id, ok), Now());
    }

    method ObtainBlank(id: PageId) returns (ok: bool)
      requires Valid()
      modifies this
      ensures Valid() && Does(shape, old(Now()), NewPage(id, ok), Now())
      ensures ok ==> id in frames && frames[id].data == Zeros(shape.size) && frames[id].dirty
    {
      if id in frames {
        Pin(id);
        frames, touched := frames[id := frames[id].(data := Zeros(shape.size), dirty := true)], touched - {id};
        return true;
      }
      ok := EnsureCapacity();
      if ok {
        Insert(id, Zeros(shape.size), true);
      }
    }

    /** A client stores bytes in the frame it was handed. */
    method Store(id: PageId, data: Page)
      requires Valid() && id in frames
      modifies this`frames, this`touched
      ensures Valid() && Does(shape, old(Now()), Write(id, data), Now())
    {
      touched := if frames[id].dirty then touched else touched + {id};
      frames := frames[id := frames[id].(data := data)];
    }

    method MarkPageDirty(id: PageId) returns (ok: bool)
      requires Valid()
      modifies this`frames, this`touched
      ensures Valid() && Does(shape, old(Now()), MarkDirty(id), Now()) && (ok <==> id in old(frames))
    {
      ok := id in frames;
      if ok {
        frames, touched := frames[id := frames[id].(dirty := true)], touched - {id};
      }
    }

    method UnpinPage(id: PageId, dirty: bool) returns (ok: bool)
      requires Valid()
      modifies this`frames, this`touched
      ensures Valid() && Does(shape, old(Now()), Unpin(id, dirty), Now())
      ensures ok <==> id in old(frames) && old(frames)[id].pins > 0
      ensures ok ==> id in frames && frames[id].pins == old(frames)[id].pins - 1
      ensures PinsElsewhere(old(Now()), Now(), id) && (!ok ==> Now() == old(Now()))
    {
      ok := id in frames && frames[id].pins > 0;
      if ok {
        frames := frames[id := frames[id].(pins := frames[id].pins - 1)];
        if dirty {
          frames, touched := frames[id := frames[id].(dirty := true)], touched - {id};
        }
      }
    }

    method FlushPage(id: PageId) returns (ok: bool)
      requires Valid()
      modifies this`frames, this`disk
      ensures Valid() && (ok <==> id in old(frames)) && Does(shape, old(Now()), FlushPages([id]), Now())
    {
      ok := id in frames;
      if ok {
        FlushFrame(id);
      }
    }

    method FlushNext(ghost start: State, ghost order: seq<PageId>, id: PageId)
      requires Valid() && id in start.frames && Now() == FlushMany(shape, start, order)
      modifies this`frames, this`disk
      ensures Valid() && Now() == FlushMany(shape, start, order + [id])
    {
      FlushManySnoc(shape, start, order, id);
      FlushFrame(id);
    }

    method FlushAll() returns (ghost order: seq<PageId>)
      requires Valid()
      modifies this`frames, this`disk
      ensures Valid() && Elements(order) == old(frames).Keys && Does(shape, old(Now()), FlushPages(order), Now())
    {
      ghost var start := Now();
      var todo := frames.Keys;
      order := [];
      while todo != {}
        invariant Visited(order, todo, start.frames.Keys)
        invariant Valid() && Now() == FlushMany(shape, start, order)
        decreases |todo|
      {
        var id :| id in todo;
        VisitOne(order, todo, start.frames.Keys, id);
        FlushNext(start, order, id);
        todo, order := todo - {id}, order + [id];
      }
    }
  }

  /** All but `todo` have had their turn. */
  ghost predicate Visited(order: seq<PageId>, todo: set<PageId>, all: set<PageId>) {
    todo <= all && Elements(order) == all - todo
  }

  lemma VisitOne(order: seq<PageId>, todo: set<PageId>, all: set<PageId>, id: PageId)
    requires Visited(order, todo, all) && id in todo
    ensures Visited(order + [id], todo - {id}, all) && id in all
  {
    assert Elements(order + [id]) == Elements(order) + {id};
  }

  lemma FlushManySnoc(c: Shape, s: State, order: seq<PageId>, id: PageId)
    requires id in s.frames
    ensures FlushMany(c, s, order + [id]) == Flushed(c, FlushMany(c, s, order), id)
  {
    assert (order + [id])[..|order|] == order;
  }

  lemma FirstAccess(now: nat, k: nat)
    requires k > 0
    ensures Remember([], now, k) == [now]
  {
  }

  /** Making room leaves the disk copies of pages that were not resident alone. */
  lemma RoomKeepsOthersOnDisk(c: Shape, s: State, room: State, id: PageId)
    requires MakesRoom(c, s, room) && id !in s.frames
    ensures id in room.disk <==> id in s.disk
    ensures id in s.disk ==> room.disk[id] == s.disk[id]
  {
  }

  /** After `flush_all` nothing is dirty, and every page without a pending client write equals its copy on disk. */
  lemma FlushAllCleans(c: Shape, s: State, order: seq<PageId>, id: PageId)
    requires Good(c, s) && Elements(order) == s.frames.Keys && id in s.frames
    ensures var t := FlushMany(c, s, order);
      && id in t.frames && !t.frames[id].dirty
      && (c.writer && id !in t.touched ==> OnDisk(t.disk, c.size, id) == Content(c, s, id))
  {
    var t := FlushMany(c, s, order);
    FlushCorrect(c, s, order);
    assert id in Elements(order);
    FlushedStayClean(c, s, order, id);
    assert Content(c, t, id) == Content(c, s, id);
    if c.writer && id !in t.touched {
      CleanCopy(c, t, id);
    }
  }

  lemma {:induction false} FlushedStayClean(c: Shape, s: State, order: seq<PageId>, id: PageId)
    requires id in s.frames
    ensures id in order ==> !FlushMany(c, s, order).frames[id].dirty
  {
    if order != [] {
      var n := |order| - 1;
      assert order == order[..n] + [order[n]];
      FlushedStayClean(c, s, order[..n], id);
    }
  }

  /** The argument checks of the constructor. */
  method OpenPool(capacity: int, size: int, k: int, writer: bool, disk: map<PageId, Page>) returns (r: Result<Pool>)
    ensures r.Err? <==> capacity <= 0 || size <= 0 || k <= 0
    ensures r.Ok? ==> fresh(r.value) && r.value.Valid() && r.value.shape == Shape(capacity, size, k, writer)
    ensures r.Ok? ==> Good(r.value.shape, r.value.Now())
    ensures r.Ok? ==> forall id: PageId :: Content(r.value.shape, r.value.Now(), id) == OnDisk(disk, size, id)
  {
    if capacity <= 0 || size <= 0 || k <= 0 {
      return Err("ValueError");
    }
    var pool := new Pool(Shape(capacity, size, k, writer), disk);
    r := Ok(pool);
  }
}
