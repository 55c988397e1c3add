/** Frames of the buffer pool and the LRU-K order on them (storage/buffer_pool.py). */
module LruK {
  type Byte = x: nat | x < 256
  type Page = seq<Byte>
  type PageId = nat

  datatype Frame = Frame(data: Page, pins: nat, dirty: bool, history: seq<nat>)

  type Frames = map<PageId, Frame>

  /** Every access since a page became resident, oldest first. */
  type Accesses = map<PageId, seq<nat>>

  // ---------------------------------------------------------------- access histories

  /** The last `k` elements, or all of them. */
  function LastK(log: seq<nat>, k: nat): seq<nat> {
    if |log| <= k then log else log[|log| - k..]
  }

  /** `append`, then `del history[:-k]` when there are more than `k`. */
  function Remember(history: seq<nat>, now: nat, k: nat): seq<nat> {
    var longer := history + [now];
    if |longer| > k then longer[|longer| - k..] else longer
  }

  lemma RememberKeepsLastK(log: seq<nat>, now: nat, k: nat)
    requires k > 0
    ensures Remember(LastK(log, k), now, k) == LastK(log + [now], k)
  {
  }

  /**
    A frame remembers the last `k` of its accesses; `trace` is every access to the
    pool in time order, so the frame's latest one is an access to its page.
    */
  ghost predicate FrameOk(id: PageId, f: Frame, log: seq<nat>, k: nat, trace: seq<PageId>) {
    && log != [] && f.history == LastK(log, k)
    && 1 <= Latest(log) <= |trace| && trace[Latest(log) - 1] == id
  }

  function Latest(log: seq<nat>): int {
    if log == [] then -1 else log[|log| - 1]
  }

  /** The time of the k-th most recent access, or -1 where there are fewer. */
  function KthLatest(log: seq<nat>, k: nat): int {
    if 0 < k <= |log| then log[|log| - k] else -1
  }

  /** The victim order computed from a frame's own history. */
  function Key(f: Frame, k: nat): (int, int) {
    (if |f.history| >= k && f.history != [] then f.history[0] else -1,
     if f.history != [] then f.history[|f.history| - 1] else -1)
  }

  predicate KeyLess(a: (int, int), b: (int, int)) {
    a.0 < b.0 || (a.0 == b.0 && a.1 < b.1)
  }

  /** The trimmed history is enough to rank a frame by its whole access log. */
  lemma KeyIsFromLog(id: PageId, f: Frame, log: seq<nat>, k: nat, trace: seq<PageId>)
    requires FrameOk(id, f, log, k, trace) && k > 0
    ensures Key(f, k) == (KthLatest(log, k), Latest(log))
  {
  }

  /** `v` is the unpinned page with the oldest k-th latest access, ties broken by the oldest latest access. */
  ghost predicate IsVictim(frames: Frames, accesses: Accesses, k: nat, v: PageId) {
    && v in frames && v in accesses && frames[v].pins == 0
    && forall id :: id in frames && id in accesses && id != v && frames[id].pins == 0 ==>
      KeyLess((KthLatest(accesses[v], k), Latest(accesses[v])), (KthLatest(accesses[id], k), Latest(accesses[id])))
  }

  lemma VictimIsUnique(frames: Frames, accesses: Accesses, k: nat, v: PageId, w: PageId)
    requires IsVictim(frames, accesses, k, v) && IsVictim(frames, accesses, k, w)
    ensures v == w
  {
  }

  predicate AllPinned(frames: Frames) {
    forall id :: id in frames ==> frames[id].pins > 0
  }

  /** No unpinned frame outside `todo` ranks below `v`. */
  ghost predicate Lowest(frames: Frames, k: nat, v: PageId, todo: set<PageId>) {
    && v in frames && frames[v].pins == 0
    && forall id :: id in frames && id !in todo && frames[id].pins == 0 ==>
        !KeyLess(Key(frames[id], k), Key(frames[v], k))
  }

  /** `min(candidates, key=...)` over the unpinned frames. */
  method LowestKey(frames: Frames, k: nat) returns (ok: bool, v: PageId)
    ensures ok <==> !AllPinned(frames)
    ensures ok ==> Lowest(frames, k, v, {})
  {
    ok, v := false, 0;
    var todo := frames.Keys;
    while todo != {}
      invariant todo <= frames.Keys
      invariant !ok ==> forall id :: id in frames && id !in todo ==> frames[id].pins > 0
      invariant ok ==> Lowest(frames, k, v, todo)
      decreases |todo|
    {
      var id :| id in todo;
      todo := todo - {id};
      if frames[id].pins == 0 && (!ok || KeyLess(Key(frames[id], k), Key(frames[v], k))) {
        ok, v := true, id;
      }
    }
  }

  /** Distinct pages have distinct latest accesses, so the lowest key has one owner. */
  lemma LowestBeats(frames: Frames, accesses: Accesses, k: nat, trace: seq<PageId>, v: PageId, id: PageId)
    requires k > 0 && v in frames && id in frames && v in accesses && id in accesses && id != v
    requires FrameOk(v, frames[v], accesses[v], k, trace) && FrameOk(id, frames[id], accesses[id], k, trace)
    requires !KeyLess(Key(frames[id], k), Key(frames[v], k))
    ensures KeyLess((KthLatest(accesses[v], k), Latest(accesses[v])),
      (KthLatest(accesses[id], k), Latest(accesses[id])))
  {
    KeyIsFromLog(v, frames[v], accesses[v], k, trace);
    KeyIsFromLog(id, frames[id], accesses[id], k, trace);
  }

  // ---------------------------------------------------------------- frame updates

  function Touched(f: Frame, now: nat, k: nat): Frame {
    f.(history := Remember(f.history, now, k))
  }

  lemma TouchKeepsFrame(id: PageId, f: Frame, log: seq<nat>, k: nat, trace: seq<PageId>)
    requires FrameOk(id, f, log, k, trace) && k > 0
    ensures FrameOk(id, Touched(f, |trace| + 1, k), log + [|trace| + 1], k, trace + [id])
  {
    RememberKeepsLastK(log, |trace| + 1, k);
  }

  lemma Later(id: PageId, f: Frame, log: seq<nat>, k: nat, trace: seq<PageId>, y: PageId)
    requires FrameOk(id, f, log, k, trace)
    ensures FrameOk(id, f, log, k, trace + [y])
  {
  }
}
