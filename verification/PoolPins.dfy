/** Pins and accesses of the buffer pool, counted from its operations (storage/buffer_pool.py). */
module PoolPins {
  import opened Results
  import opened LruK
  import opened PoolState
  import opened PoolRuns

  // ---------------------------------------------------------------- pins

  /** How many pins a page has; none if it is not resident. */
  function PinsOf(s: State, x: PageId): nat {
    if x in s.frames then s.frames[x].pins else 0
  }

  /** What an operation that succeeded does to a page's pins: a fetch or a new page adds one, an unpin takes one. */
  function PinsAfter(pins: nat, op: Op, x: PageId): nat {
    match op
    case Fetch(id, result) => if id == x && result.Ok? then pins + 1 else pins
    case NewPage(id, ok) => if id == x && ok then pins + 1 else pins
    case Unpin(id, _) => if id == x && pins > 0 then pins - 1 else pins
    case _ => pins
  }

  lemma RoomPins(c: Shape, s: State, t: State, x: PageId)
    requires MakesRoom(c, s, t)
    ensures PinsOf(t, x) == PinsOf(s, x) && (x in t.frames ==> x in s.frames)
  {
  }

  lemma {:induction false} FlushPins(c: Shape, s: State, order: seq<PageId>, x: PageId)
    ensures PinsOf(FlushMany(c, s, order), x) == PinsOf(s, x)
  {
    if order != [] {
      FlushPins(c, s, order[..|order| - 1], x);
    }
  }

  lemma FetchPins(c: Shape, s: State, id: PageId, r: Result<Page>, t: State, x: PageId)
    requires Fetches(c, s, id, r, t)
    ensures PinsOf(t, x) == PinsAfter(PinsOf(s, x), Fetch(id, r), x)
    ensures r.Ok? ==> id in t.frames
  {
    if id !in s.frames && !NoRoom(c, s) {
      if Oversized(c, s, id) {
        RoomPins(c, s, t, x);
      } else {
        var room :| EntersAfter(c, s, room, id, r, t);
        RoomPins(c, s, room, x);
      }
    }
  }

  lemma CreatePins(c: Shape, s: State, id: PageId, ok: bool, t: State, x: PageId)
    requires Creates(c, s, id, ok, t)
    ensures PinsOf(t, x) == PinsAfter(PinsOf(s, x), NewPage(id, ok), x)
    ensures ok ==> id in t.frames
  {
    if id !in s.frames && ok {
      var room :| MakesRoom(c, s, room) && t == Entered(c, room, id, Zeros(c.size), true);
      RoomPins(c, s, room, x);
    }
  }

  /** A fetch or new page that succeeds pins its page once more and an unpin once less; nothing else moves a pin. */
  lemma StepPins(c: Shape, s: State, op: Op, t: State, x: PageId)
    requires Does(c, s, op, t)
    ensures PinsOf(t, x) == PinsAfter(PinsOf(s, x), op, x)
    ensures (op.Fetch? && op.result.Ok?) || (op.NewPage? && op.ok) ==> op.id in t.frames
  {
    match op
    case Fetch(id, r) => FetchPins(c, s, id, r, t, x);
    case NewPage(id, ok) => CreatePins(c, s, id, ok, t, x);
    case FlushPages(order) => FlushPins(c, s, order, x);
    case _ =>
  }

  /** No page but `id` gained or lost a pin. */
  ghost predicate PinsElsewhere(s: State, t: State, id: PageId) {
    forall x: PageId :: x != id ==> PinsOf(t, x) == PinsOf(s, x)
  }

  /** A fetch or a new page moves the pins of its own page only. */
  lemma OnePinMoves(c: Shape, s: State, op: Op, t: State)
    requires Does(c, s, op, t) && (op.Fetch? || op.NewPage?)
    ensures PinsElsewhere(s, t, op.id) && PinsOf(t, op.id) == PinsAfter(PinsOf(s, op.id), op, op.id)
    ensures (op.Fetch? && op.result.Ok?) || (op.NewPage? && op.ok) ==> op.id in t.frames
  {
    forall x: PageId
      ensures PinsOf(t, x) == PinsAfter(PinsOf(s, x), op, x)
    {
      StepPins(c, s, op, t, x);
    }
    StepPins(c, s, op, t, op.id);
  }

  /** A fetch is refused if and only if its page is absent and no frame can be freed, or its disk copy is too long. */
  lemma FetchRefusedIff(c: Shape, s: State, id: PageId, r: Result<Page>, t: State)
    requires Fetches(c, s, id, r, t)
    ensures r.Err? <==>
      && id !in s.frames
      && ((|s.frames| >= c.capacity && forall x :: x in s.frames ==> s.frames[x].pins > 0)
          || (id in s.disk && |s.disk[id]| > c.size))
    ensures r.Err? ==> r == Err("CDB-7005")
  {
  }

  /** The pins a page must have after these operations: one for each fetch or new page not yet given back. */
  function Held(ops: seq<Op>, x: PageId): nat {
    if ops == [] then 0 else PinsAfter(Held(ops[..|ops| - 1], x), ops[|ops| - 1], x)
  }

  /** In every run a page has as many pins as were taken and not given back. */
  lemma {:induction false} PinsAreHeld(c: Shape, states: seq<State>, ops: seq<Op>, n: nat, x: PageId)
    requires Run(c, states, ops) && n <= |ops|
    ensures PinsOf(states[n], x) == Held(ops[..n], x)
  {
    if n > 0 {
      PinsAreHeld(c, states, ops, n - 1, x);
      assert Does(c, states[n - 1], ops[n - 1], states[n]);
      StepPins(c, states[n - 1], ops[n - 1], states[n], x);
      assert ops[..n][..n - 1] == ops[..n - 1];
    }
  }

  /** So a page that was fetched and not yet released is resident. */
  lemma HeldIsResident(c: Shape, states: seq<State>, ops: seq<Op>, n: nat, x: PageId)
    requires Run(c, states, ops) && n <= |ops| && Held(ops[..n], x) > 0
    ensures x in states[n].frames && states[n].frames[x].pins == Held(ops[..n], x)
  {
    PinsAreHeld(c, states, ops, n, x);
  }

  // ---------------------------------------------------------------- accesses

  /** The page an operation accesses, if it succeeds. */
  function AccessOf(op: Op): seq<PageId> {
    match op
    case Fetch(id, result) => if result.Ok? then [id] else []
    case NewPage(id, ok) => if ok then [id] else []
    case _ => []
  }

  function Accessed(ops: seq<Op>): seq<PageId> {
    if ops == [] then [] else Accessed(ops[..|ops| - 1]) + AccessOf(ops[|ops| - 1])
  }

  /** The log of `x` holds exactly the times of its accesses from its first entry on, in order. */
  ghost predicate Logged(s: State, x: PageId) {
    && x in s.accesses && s.accesses[x] != [] && 1 <= s.accesses[x][0]
    && (forall i, j :: 0 <= i < j < |s.accesses[x]| ==> s.accesses[x][i] < s.accesses[x][j])
    && (forall p :: p in s.accesses[x] <==> s.accesses[x][0] <= p <= |s.trace| && s.trace[p - 1] == x)
  }

  /** Since it became resident; a page that has just become so has this access only. */
  ghost predicate LogContinues(s: State, t: State, x: PageId) {
    && Logged(t, x)
    && if x in s.frames then x in s.accesses && s.accesses[x] != [] && t.accesses[x][0] == s.accesses[x][0]
       else t.accesses[x] == [|t.trace|]
  }

  lemma PinnedLog(c: Shape, s: State, id: PageId, x: PageId)
    requires id in s.frames && id in s.accesses && x in s.frames && Logged(s, x)
    ensures LogContinues(s, Pinned(c, s, id), x)
  {
    var t, log := Pinned(c, s, id), s.accesses[x];
    var now := |s.trace| + 1;
    if x == id {
      assert t.accesses[x] == log + [now];
      assert log[0] in log;
      forall p
        ensures p in log + [now] <==> log[0] <= p <= now && t.trace[p - 1] == x
      {
        assert p in log + [now] <==> p in log || p == now;
        if 1 <= p <= |s.trace| {
          assert t.trace[p - 1] == s.trace[p - 1];
        }
        assert t.trace[now - 1] == x && (log + [now])[0] == log[0];
      }
      assert forall i :: 0 <= i < |log| ==> log[i] in log;
    }
  }

  lemma EnteredLog(c: Shape, s: State, id: PageId, data: Page, dirty: bool, x: PageId)
    requires id !in s.frames && (x in s.frames ==> Logged(s, x)) && (x == id || x in s.frames)
    ensures LogContinues(s, Entered(c, s, id, data, dirty), x)
  {
    var t := Entered(c, s, id, data, dirty);
    if x == id {
      assert t.accesses[x] == [|t.trace|] && t.trace[|t.trace| - 1] == x;
    } else {
      assert t.accesses[x] == s.accesses[x];
    }
  }

  lemma RoomLog(c: Shape, s: State, t: State, x: PageId)
    requires MakesRoom(c, s, t) && x in t.frames && (x in s.frames ==> Logged(s, x))
    ensures x in s.frames && Logged(t, x) && t.accesses[x] == s.accesses[x]
  {
  }

  lemma AfterRoomLog(c: Shape, s: State, room: State, id: PageId, data: Page, dirty: bool, x: PageId)
    requires MakesRoom(c, s, room) && id !in s.frames && x in Entered(c, room, id, data, dirty).frames
    requires x in s.frames ==> Logged(s, x)
    ensures LogContinues(s, Entered(c, room, id, data, dirty), x)
  {
    if x != id {
      RoomLog(c, s, room, x);
    }
    EnteredLog(c, room, id, data, dirty, x);
  }

  lemma FetchLog(c: Shape, s: State, id: PageId, r: Result<Page>, t: State, x: PageId)
    requires Fetches(c, s, id, r, t) && x in t.frames && (x in s.frames ==> Logged(s, x))
    ensures LogContinues(s, t, x) && t.trace == s.trace + AccessOf(Fetch(id, r))
  {
    if id in s.frames {
      PinnedLog(c, s, id, x);
    } else if !NoRoom(c, s) {
      if Oversized(c, s, id) {
        RoomLog(c, s, t, x);
      } else {
        var room :| EntersAfter(c, s, room, id, r, t);
        AfterRoomLog(c, s, room, id, OnDisk(room.disk, c.size, id), false, x);
      }
    }
  }

  lemma CreateLog(c: Shape, s: State, id: PageId, ok: bool, t: State, x: PageId)
    requires Creates(c, s, id, ok, t) && x in t.frames && (x in s.frames ==> Logged(s, x))
    ensures LogContinues(s, t, x) && t.trace == s.trace + AccessOf(NewPage(id, ok))
  {
    if id in s.frames {
      PinnedLog(c, s, id, x);
    } else if ok {
      var room :| MakesRoom(c, s, room) && t == Entered(c, room, id, Zeros(c.size), true);
      AfterRoomLog(c, s, room, id, Zeros(c.size), true, x);
    }
  }

  lemma {:induction false} FlushLog(c: Shape, s: State, order: seq<PageId>)
    ensures var t := FlushMany(c, s, order);
      t.accesses == s.accesses && t.trace == s.trace && t.frames.Keys == s.frames.Keys
  {
    if order != [] {
      FlushLog(c, s, order[..|order| - 1]);
    }
  }

  /** Every operation keeps the logs of the resident pages. */
  lemma StepLog(c: Shape, s: State, op: Op, t: State, x: PageId)
    requires Does(c, s, op, t) && x in t.frames && (x in s.frames ==> Logged(s, x))
    ensures LogContinues(s, t, x)
  {
    match op
    case Fetch(id, r) => FetchLog(c, s, id, r, t, x);
    case NewPage(id, ok) => CreateLog(c, s, id, ok, t, x);
    case FlushPages(order) => FlushLog(c, s, order);
    case _ =>
  }

  lemma FetchTrace(c: Shape, s: State, id: PageId, r: Result<Page>, t: State)
    requires Fetches(c, s, id, r, t)
    ensures t.trace == s.trace + AccessOf(Fetch(id, r))
  {
    if id !in s.frames && !NoRoom(c, s) && !Oversized(c, s, id) {
      var room :| EntersAfter(c, s, room, id, r, t);
    }
  }

  lemma CreateTrace(c: Shape, s: State, id: PageId, ok: bool, t: State)
    requires Creates(c, s, id, ok, t)
    ensures t.trace == s.trace + AccessOf(NewPage(id, ok))
  {
  }

  lemma StepTrace(c: Shape, s: State, op: Op, t: State)
    requires Does(c, s, op, t)
    ensures t.trace == s.trace + AccessOf(op)
  {
    match op
    case Fetch(id, r) => FetchTrace(c, s, id, r, t);
    case NewPage(id, ok) => CreateTrace(c, s, id, ok, t);
    case FlushPages(order) => FlushLog(c, s, order);
    case _ =>
  }

  /** Every step extends the trace by its access, and the log of each page that stays or enters. */
  ghost predicate Logging(states: seq<State>, ops: seq<Op>) {
    && |states| == |ops| + 1 && states[0].frames == map[]
    && forall i :: 0 <= i < |ops| ==> StepLogged(states[i], ops[i], states[i + 1])
  }

  ghost predicate StepLogged(s: State, op: Op, t: State) {
    t.trace == s.trace + AccessOf(op) && forall x :: LogStep(s, op, t, x)
  }

  ghost predicate LogStep(s: State, op: Op, t: State, x: PageId) {
    x in t.frames && (x in s.frames ==> Logged(s, x)) ==>
      LogContinues(s, t, x) && (x in s.frames || AccessOf(op) == [x])
  }

  lemma StepLogs(c: Shape, s: State, op: Op, t: State, x: PageId)
    requires Does(c, s, op, t)
    ensures LogStep(s, op, t, x)
  {
    if x in t.frames && (x in s.frames ==> Logged(s, x)) {
      StepLog(c, s, op, t, x);
      if x !in s.frames {
        OnlyAccessesEnter(c, s, op, t, x);
      }
    }
  }

  lemma RunIsLogging(c: Shape, states: seq<State>, ops: seq<Op>)
    requires Run(c, states, ops)
    ensures Logging(states, ops)
  {
    forall i | 0 <= i < |ops|
      ensures StepLogged(states[i], ops[i], states[i + 1])
    {
      StepIsLogged(c, states[i], ops[i], states[i + 1]);
    }
  }

  lemma StepIsLogged(c: Shape, s: State, op: Op, t: State)
    requires Does(c, s, op, t)
    ensures StepLogged(s, op, t)
  {
    StepTrace(c, s, op, t);
    forall x
      ensures LogStep(s, op, t, x)
    {
      StepLogs(c, s, op, t, x);
    }
  }

  /** Enough of a run: the trace is the accesses so far, and every resident page is logged. */
  lemma {:induction false} TraceIsAccessed(states: seq<State>, ops: seq<Op>, n: nat)
    requires Logging(states, ops) && n <= |ops|
    ensures states[n].trace == states[0].trace + Accessed(ops[..n])
  {
    if n > 0 {
      TraceIsAccessed(states, ops, n - 1);
      assert StepLogged(states[n - 1], ops[n - 1], states[n]);
      assert ops[..n][..n - 1] == ops[..n - 1];
    }
  }

  lemma {:induction false} ResidentIsLogged(states: seq<State>, ops: seq<Op>, n: nat, x: PageId)
    requires Logging(states, ops) && n <= |ops| && x in states[n].frames
    ensures Logged(states[n], x)
  {
    if n > 0 {
      if x in states[n - 1].frames {
        ResidentIsLogged(states, ops, n - 1, x);
      }
      assert StepLogged(states[n - 1], ops[n - 1], states[n]);
      assert LogStep(states[n - 1], ops[n - 1], states[n], x);
    }
  }

  lemma {:induction false} TraceGrows(states: seq<State>, ops: seq<Op>, m: nat, n: nat)
    requires Logging(states, ops) && m <= n <= |ops|
    ensures |states[m].trace| <= |states[n].trace|
  {
    if m < n {
      TraceGrows(states, ops, m, n - 1);
      assert StepLogged(states[n - 1], ops[n - 1], states[n]);
    }
  }

  lemma {:induction false} LogStartsAtEntry(states: seq<State>, ops: seq<Op>, m: nat, n: nat, x: PageId)
    requires Logging(states, ops) && m <= n <= |ops| && x in states[n].frames
    ensures Logged(states[n], x)
    ensures |states[m].trace| >= states[n].accesses[x][0] ==> x in states[m].frames
  {
    ResidentIsLogged(states, ops, n, x);
    if m < n {
      assert StepLogged(states[n - 1], ops[n - 1], states[n]);
      assert LogStep(states[n - 1], ops[n - 1], states[n], x);
      if x in states[n - 1].frames {
        ResidentIsLogged(states, ops, n - 1, x);
        LogStartsAtEntry(states, ops, m, n - 1, x);
      } else {
        TraceGrows(states, ops, m, n - 1);
      }
    }
  }

  /**
    In every run the clock counts the successful fetches and new pages, and the
    log of a resident page holds exactly the times it was accessed since it last
    became resident.
    */
  lemma LogsAreAccesses(c: Shape, states: seq<State>, ops: seq<Op>, m: nat, n: nat, x: PageId)
    requires Run(c, states, ops) && m <= n <= |ops|
    ensures states[n].trace == states[0].trace + Accessed(ops[..n])
    ensures x in states[n].frames ==>
      && Logged(states[n], x)
      && (|states[m].trace| >= states[n].accesses[x][0] ==> x in states[m].frames)
  {
    RunIsLogging(c, states, ops);
    TraceIsAccessed(states, ops, n);
    if x in states[n].frames {
      LogStartsAtEntry(states, ops, m, n, x);
    }
  }

  lemma FetchEnters(c: Shape, s: State, id: PageId, r: Result<Page>, t: State, x: PageId)
    requires Fetches(c, s, id, r, t) && x in t.frames && x !in s.frames
    ensures r.Ok? && id == x
  {
    if id !in s.frames && !NoRoom(c, s) {
      if Oversized(c, s, id) {
        RoomPins(c, s, t, x);
      } else {
        var room :| EntersAfter(c, s, room, id, r, t);
        RoomPins(c, s, room, x);
      }
    }
  }

  lemma CreateEnters(c: Shape, s: State, id: PageId, ok: bool, t: State, x: PageId)
    requires Creates(c, s, id, ok, t) && x in t.frames && x !in s.frames
    ensures ok && id == x
  {
    if id !in s.frames && ok {
      var room :| MakesRoom(c, s, room) && t == Entered(c, room, id, Zeros(c.size), true);
      RoomPins(c, s, room, x);
    }
  }

  lemma OnlyAccessesEnter(c: Shape, s: State, op: Op, t: State, x: PageId)
    requires Does(c, s, op, t) && x in t.frames && x !in s.frames
    ensures AccessOf(op) == [x]
  {
    match op
    case Fetch(id, r) => FetchEnters(c, s, id, r, t, x);
    case NewPage(id, ok) => CreateEnters(c, s, id, ok, t, x);
    case FlushPages(order) => FlushLog(c, s, order);
    case _ =>
  }
}
