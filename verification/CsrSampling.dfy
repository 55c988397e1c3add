/** `batch_neighbors` with its validation and sampling (graph/csr_reader.py). */
module CsrSampling {
  import opened Results
  import opened Seqs
  import opened Walks
  import opened CsrBuilder
  import opened CsrReader

  // The random generator is an arbitrary choice of offsets that respects the contract of `Generator.choice`.

  datatype Strategy = Uniform | First | All

  // ---------------------------------------------------------------- segments of equal sources

  datatype Run = Run(start: nat, end: nat)

  /** The maximal runs of equal sources, as `zip(seg_start, seg_end)` delivers them. */
  function Runs(src: seq<nat>): (r: seq<Run>)
    ensures src != [] ==> r != []
  {
    if src == [] then []
    else
      var n := |src| - 1;
      var r := Runs(src[..n]);
      if n == 0 || src[n] != src[n - 1] then r + [Run(n, n + 1)]
      else Lengthened(r, n + 1)
  }

  /** The last run now ends at `end`. */
  function Lengthened(runs: seq<Run>, end: nat): seq<Run>
    requires runs != []
  {
    runs[..|runs| - 1] + [Run(runs[|runs| - 1].start, end)]
  }

  ghost predicate RunsInside(runs: seq<Run>, n: nat) {
    forall j :: 0 <= j < |runs| ==> runs[j].start < runs[j].end <= n
  }

  lemma {:induction false} RunsAreInside(src: seq<nat>)
    ensures RunsInside(Runs(src), |src|)
  {
    if src != [] {
      RunsAreInside(src[..|src| - 1]);
    }
  }

  /** Appending a block of a new source adds exactly one run. */
  lemma {:induction false} RunAppend(src: seq<nat>, x: nat, count: nat)
    requires count > 0 && (src == [] || src[|src| - 1] != x)
    ensures Runs(src + Fill(x, count)) == Runs(src) + [Run(|src|, |src| + count)]
    decreases count
  {
    var before := src + Fill(x, count - 1);
    FillSnoc(src, x, count);
    if count == 1 {
      RunStarts(src, x);
    } else {
      RunAppend(src, x, count - 1);
      RunExtends(before, x, Runs(src), |src|);
    }
  }

  lemma FillSnoc(src: seq<nat>, x: nat, count: nat)
    requires count > 0
    ensures var before := src + Fill(x, count - 1);
      && src + Fill(x, count) == before + [x] && |before| == |src| + count - 1
      && if count == 1 then before == src else before[|before| - 1] == x
  {
  }

  lemma RunStarts(src: seq<nat>, x: nat)
    requires src == [] || src[|src| - 1] != x
    ensures Runs(src + [x]) == Runs(src) + [Run(|src|, |src| + 1)]
  {
    SnocParts(src, x);
  }

  lemma RunExtends(src: seq<nat>, x: nat, runs: seq<Run>, start: nat)
    requires src != [] && src[|src| - 1] == x && Runs(src) == runs + [Run(start, |src|)]
    ensures Runs(src + [x]) == runs + [Run(start, |src| + 1)]
  {
    SnocParts(src, x);
    LengthenedSnoc(runs, Run(start, |src|), |src| + 1);
  }

  lemma LengthenedSnoc(runs: seq<Run>, run: Run, end: nat)
    ensures Lengthened(runs + [run], end) == runs + [Run(run.start, end)]
  {
    SnocParts(runs, run);
  }

  lemma SnocParts<T>(s: seq<T>, x: T)
    ensures var whole := s + [x];
      && whole[..|s|] == s && whole[|s|] == x && |whole| == |s| + 1
      && (s != [] ==> whole[|s| - 1] == s[|s| - 1])
  {
  }

  // ---------------------------------------------------------------- one segment

  /** `np.resize(arange(size), count)`. */
  function Resize(size: nat, count: nat): (r: seq<nat>)
    requires size > 0
    ensures |r| == count && AllBelow(r, size)
  {
    seq(count, i requires 0 <= i => i % size)
  }

  /** The offsets kept from a segment of `size` slots. */
  ghost predicate ValidPick(pick: seq<nat>, size: nat, fanout: nat, replace: bool, strategy: Strategy) {
    if size <= fanout && !replace then pick == Range(0, size)
    else if strategy == First then
      if replace && size < fanout then size > 0 && pick == Range(0, size) + Resize(size, fanout - size)
      else fanout <= size && pick == Range(0, fanout)
    else |pick| == fanout && AllBelow(pick, size) && (!replace ==> Distinct(pick))
  }

  lemma PickInside(pick: seq<nat>, size: nat, fanout: nat, replace: bool, strategy: Strategy)
    requires ValidPick(pick, size, fanout, replace, strategy)
    ensures AllBelow(pick, size)
    ensures !replace ==> Distinct(pick) && |pick| == if size <= fanout then size else fanout
    ensures !replace && strategy == First ==> pick == Range(0, |pick|)
  {
  }

  /** `rng.choice(size, size=fanout, replace=replace)`. */
  method Choice(size: nat, fanout: nat, replace: bool) returns (offsets: seq<nat>)
    requires size > 0 && (!replace ==> fanout <= size)
    ensures |offsets| == fanout && AllBelow(offsets, size) && (!replace ==> Distinct(offsets))
  {
    ghost var witnessed: seq<nat> := seq(fanout, i requires 0 <= i => if i < size then i else 0);
    assert |witnessed| == fanout && AllBelow(witnessed, size) && (!replace ==> Distinct(witnessed));
    offsets :| |offsets| == fanout && AllBelow(offsets, size) && (!replace ==> Distinct(offsets));
  }

  method PickSegment(size: nat, fanout: nat, replace: bool, strategy: Strategy) returns (pick: seq<nat>)
    requires size > 0
    ensures ValidPick(pick, size, fanout, replace, strategy)
  {
    if size <= fanout && !replace {
      pick := Range(0, size);
    } else if strategy == First {
      if replace && size < fanout {
        pick := Range(0, size) + Resize(size, fanout - size);
      } else {
        pick := Range(0, fanout);
      }
    } else {
      pick := Choice(size, fanout, replace);
    }
  }

  // ---------------------------------------------------------------- the sampler

  function Shift(start: nat, pick: seq<nat>): (r: seq<nat>)
    ensures |r| == |pick| && forall i :: 0 <= i < |r| ==> r[i] == start + pick[i]
  {
    seq(|pick|, i requires 0 <= i < |pick| => start + pick[i])
  }

  /** All picks as positions in the flat arrays. */
  function ShiftAll(starts: seq<nat>, picks: seq<seq<nat>>): seq<nat>
    requires |starts| == |picks|
  {
    if picks == [] then []
    else
      var n := |picks| - 1;
      ShiftAll(starts[..n], picks[..n]) + Shift(starts[n], picks[n])
  }

  function RunShift(runs: seq<Run>, picks: seq<seq<nat>>): seq<nat>
    requires |runs| == |picks|
  {
    if picks == [] then []
    else
      var n := |picks| - 1;
      RunShift(runs[..n], picks[..n]) + Shift(runs[n].start, picks[n])
  }

  ghost predicate ValidPicks(runs: seq<Run>, picks: seq<seq<nat>>, fanout: nat, replace: bool, strategy: Strategy) {
    && |picks| == |runs|
    && (picks != [] ==>
          var n := |picks| - 1;
          && ValidPicks(runs[..n], picks[..n], fanout, replace, strategy)
          && runs[n].start < runs[n].end
          && ValidPick(picks[n], runs[n].end - runs[n].start, fanout, replace, strategy))
  }

  lemma {:induction false} PicksInside(n: nat, runs: seq<Run>, picks: seq<seq<nat>>, fanout: nat, replace: bool,
                                       strategy: Strategy)
    requires ValidPicks(runs, picks, fanout, replace, strategy) && RunsInside(runs, n)
    ensures AllBelow(RunShift(runs, picks), n)
  {
    if picks != [] {
      var k := |picks| - 1;
      PicksInside(n, runs[..k], picks[..k], fanout, replace, strategy);
      PickInside(picks[k], runs[k].end - runs[k].start, fanout, replace, strategy);
    }
  }

  /** `_sample_segments`: one pick per run of equal sources, gathered in run order. */
  method SampleSegments(fan: Fan, fanout: nat, replace: bool, strategy: Strategy)
    returns (kept: Fan, ghost picks: seq<seq<nat>>)
    requires |fan.src| == |fan.dst| && (fan.eid.Some? ==> |fan.eid.value| == |fan.src|)
    ensures ValidPicks(Runs(fan.src), picks, fanout, replace, strategy)
    ensures AllBelow(RunShift(Runs(fan.src), picks), |fan.src|)
    ensures kept == GatherFan(fan, RunShift(Runs(fan.src), picks))
  {
    var runs := Runs(fan.src);
    RunsAreInside(fan.src);
    var keepIdx: seq<nat> := [];
    picks := [];
    for j := 0 to |runs|
      invariant Sampled(runs[..j], picks, keepIdx, fanout, replace, strategy)
    {
      assert runs[j].start < runs[j].end;
      var pick := PickSegment(runs[j].end - runs[j].start, fanout, replace, strategy);
      SampleNext(runs, j, picks, keepIdx, pick, fanout, replace, strategy);
      keepIdx := keepIdx + Shift(runs[j].start, pick);
      picks := picks + [pick];
    }
    assert runs[..|runs|] == runs;
    PicksInside(|fan.src|, runs, picks, fanout, replace, strategy);
    kept := GatherFan(fan, keepIdx);
  }

  lemma SampleNext(runs: seq<Run>, j: nat, picks: seq<seq<nat>>, keepIdx: seq<nat>, pick: seq<nat>,
                   fanout: nat, replace: bool, strategy: Strategy)
    requires j < |runs| && Sampled(runs[..j], picks, keepIdx, fanout, replace, strategy) && runs[j].start < runs[j].end
    requires ValidPick(pick, runs[j].end - runs[j].start, fanout, replace, strategy)
    ensures Sampled(runs[..j + 1], picks + [pick], keepIdx + Shift(runs[j].start, pick), fanout, replace, strategy)
  {
    assert runs[..j + 1] == runs[..j] + [runs[j]];
    AddPick(runs[..j], runs[j], picks, pick, fanout, replace, strategy);
  }

  ghost predicate Sampled(runs: seq<Run>, picks: seq<seq<nat>>, keepIdx: seq<nat>, fanout: nat, replace: bool,
                          strategy: Strategy) {
    ValidPicks(runs, picks, fanout, replace, strategy) && keepIdx == RunShift(runs, picks)
  }

  lemma AddPick(runs: seq<Run>, run: Run, picks: seq<seq<nat>>, pick: seq<nat>, fanout: nat, replace: bool,
                strategy: Strategy)
    requires |runs| == |picks|
    ensures ValidPicks(runs + [run], picks + [pick], fanout, replace, strategy)
       <==> && ValidPicks(runs, picks, fanout, replace, strategy)
            && run.start < run.end && ValidPick(pick, run.end - run.start, fanout, replace, strategy)
    ensures RunShift(runs + [run], picks + [pick]) == RunShift(runs, picks) + Shift(run.start, pick)
  {
    assert (runs + [run])[..|picks|] == runs && (picks + [pick])[..|picks|] == picks;
  }

  function GatherFan(fan: Fan, idx: seq<nat>): Fan
    requires |fan.src| == |fan.dst| && (fan.eid.Some? ==> |fan.eid.value| == |fan.src|)
    requires AllBelow(idx, |fan.src|)
  {
    Fan(Gather(fan.src, idx), Gather(fan.dst, idx), if fan.eid.Some? then Some(Gather(fan.eid.value, idx)) else None)
  }

  // ---------------------------------------------------------------- per-seed meaning

  ghost predicate ValidSlot(slot: seq<nat>, len: nat, fanout: nat, replace: bool, strategy: Strategy) {
    && AllBelow(slot, len)
    && |slot| == (if len == 0 then 0 else if !replace && len <= fanout then len else fanout)
    && (!replace ==> Distinct(slot))
    && (strategy == First ==> InTurn(slot, len))
  }

  /** The first `len` slots in order, over and over. */
  ghost predicate InTurn(slot: seq<nat>, len: nat) {
    len > 0 ==> forall i :: 0 <= i < |slot| ==> slot[i] == i % len
  }

  lemma RangeInTurn(n: nat, len: nat)
    requires n <= len
    ensures InTurn(Range(0, n), len)
  {
    forall i | 0 <= i < n
      ensures Range(0, n)[i] == i % len
    {
      CycleAt(len, i);
    }
  }

  lemma PickIsSlot(pick: seq<nat>, size: nat, fanout: nat, replace: bool, strategy: Strategy)
    requires size > 0 && ValidPick(pick, size, fanout, replace, strategy)
    ensures ValidSlot(pick, size, fanout, replace, strategy)
  {
    if strategy == First {
      if replace && size < fanout {
        forall i | 0 <= i < |pick|
          ensures pick[i] == i % size
        {
          CycleAt(size, i);
        }
      } else {
        RangeInTurn(|pick|, size);
      }
    }
  }

  /** Below `size` the remainder is the number itself; one turn further it is the same again. */
  lemma CycleAt(size: nat, i: nat)
    requires size > 0
    ensures i < size ==> i % size == i
    ensures i >= size ==> (i - size) % size == i % size
  {
    if i >= size {
      OneRemainder(size, (i - size) / size + 1, (i - size) % size, i / size, i % size);
    }
  }

  lemma OneRemainder(size: nat, p: nat, r: nat, q: nat, t: nat)
    requires r < size && t < size && p * size + r == q * size + t
    ensures r == t
  {
    if p > q {
      MultiplesApart(size, p, q);
    } else if p < q {
      MultiplesApart(size, q, p);
    }
  }

  lemma MultiplesApart(size: nat, p: nat, q: nat)
    requires p > q
    ensures p * size >= q * size + size
  {
    TimesGrows(q + 1, p, size);
    TimesNext(q, size);
  }

  /** Slot choices for every seed, the empty ones included. */
  ghost predicate ValidSlots(lens: seq<nat>, slots: seq<seq<nat>>, fanout: nat, replace: bool, strategy: Strategy) {
    && |slots| == |lens|
    && forall i :: 0 <= i < |slots| ==> ValidSlot(slots[i], lens[i], fanout, replace, strategy)
  }

  /** With distinct seeds, runs of equal sources are exactly the seeds that have neighbours. */
  lemma {:induction false} PicksBySeed(vids: seq<nat>, lens: seq<nat>, picks: seq<seq<nat>>, fanout: nat,
                                       replace: bool, strategy: Strategy)
    returns (slots: seq<seq<nat>>)
    requires |vids| == |lens| && Distinct(vids)
    requires ValidPicks(Runs(Repeat(vids, lens)), picks, fanout, replace, strategy)
    ensures ValidSlots(lens, slots, fanout, replace, strategy)
    ensures RunShift(Runs(Repeat(vids, lens)), picks) == ShiftAll(BlockStarts(lens), slots)
    decreases |vids|
  {
    if vids == [] {
      slots := [];
    } else {
      var n := |vids| - 1;
      var front := Repeat(vids[..n], lens[..n]);
      LastBlockIsNew(vids, lens);
      var init, last := LastPick(front, vids[n], lens[n], picks, fanout, replace, strategy);
      var before := PicksBySeed(vids[..n], lens[..n], init, fanout, replace, strategy);
      slots := SlotsSnoc(lens, before, last, fanout, replace, strategy);
    }
  }

  /** The picks of all blocks but the last, and the slots of the last, which may be empty. */
  lemma LastPick(front: seq<nat>, x: nat, count: nat, picks: seq<seq<nat>>, fanout: nat, replace: bool,
                 strategy: Strategy)
    returns (init: seq<seq<nat>>, last: seq<nat>)
    requires front == [] || front[|front| - 1] != x
    requires ValidPicks(Runs(front + Fill(x, count)), picks, fanout, replace, strategy)
    ensures ValidPicks(Runs(front), init, fanout, replace, strategy)
      && ValidSlot(last, count, fanout, replace, strategy)
    ensures RunShift(Runs(front + Fill(x, count)), picks) == RunShift(Runs(front), init) + Shift(|front|, last)
  {
    if count == 0 {
      assert front + Fill(x, 0) == front;
      init, last := picks, [];
    } else {
      init, last := PicksSnoc(front, x, count, picks, fanout, replace, strategy);
    }
  }

  lemma PicksSnoc(front: seq<nat>, x: nat, count: nat, picks: seq<seq<nat>>, fanout: nat, replace: bool,
                  strategy: Strategy)
    returns (init: seq<seq<nat>>, last: seq<nat>)
    requires count > 0 && (front == [] || front[|front| - 1] != x)
    requires ValidPicks(Runs(front + Fill(x, count)), picks, fanout, replace, strategy)
    ensures ValidPicks(Runs(front), init, fanout, replace, strategy)
      && ValidSlot(last, count, fanout, replace, strategy)
    ensures RunShift(Runs(front + Fill(x, count)), picks) == RunShift(Runs(front), init) + Shift(|front|, last)
  {
    RunAppend(front, x, count);
    init, last := SplitPicks(Runs(front), Run(|front|, |front| + count), picks, fanout, replace, strategy);
  }

  lemma SplitPicks(runs: seq<Run>, run: Run, picks: seq<seq<nat>>, fanout: nat, replace: bool, strategy: Strategy)
    returns (init: seq<seq<nat>>, last: seq<nat>)
    requires ValidPicks(runs + [run], picks, fanout, replace, strategy)
    ensures ValidPicks(runs, init, fanout, replace, strategy)
    ensures run.start <= run.end && ValidSlot(last, run.end - run.start, fanout, replace, strategy)
    ensures RunShift(runs + [run], picks) == RunShift(runs, init) + Shift(run.start, last)
  {
    init, last := picks[..|picks| - 1], picks[|picks| - 1];
    assert picks == init + [last];
    LastPickIsSlot(runs, run, init, last, fanout, replace, strategy);
  }

  lemma LastPickIsSlot(runs: seq<Run>, run: Run, init: seq<seq<nat>>, last: seq<nat>, fanout: nat, replace: bool,
                       strategy: Strategy)
    requires ValidPicks(runs + [run], init + [last], fanout, replace, strategy)
    ensures ValidPicks(runs, init, fanout, replace, strategy)
    ensures run.start <= run.end && ValidSlot(last, run.end - run.start, fanout, replace, strategy)
    ensures RunShift(runs + [run], init + [last]) == RunShift(runs, init) + Shift(run.start, last)
  {
    AddPick(runs, run, init, last, fanout, replace, strategy);
    PickIsSlot(last, run.end - run.start, fanout, replace, strategy);
  }

  lemma LastBlockIsNew(vids: seq<nat>, lens: seq<nat>)
    requires |vids| == |lens| && vids != [] && Distinct(vids)
    ensures var n := |vids| - 1; var front := Repeat(vids[..n], lens[..n]);
            && Repeat(vids, lens) == front + Fill(vids[n], lens[n])
            && |front| == Sum(lens[..n])
            && (front == [] || front[|front| - 1] != vids[n])
  {
    var n := |vids| - 1;
    RepeatMembers(vids[..n], lens[..n]);
    RepeatLength(vids[..n], lens[..n]);
  }

  lemma SlotsSnoc(lens: seq<nat>, before: seq<seq<nat>>, last: seq<nat>, fanout: nat, replace: bool, strategy: Strategy)
    returns (slots: seq<seq<nat>>)
    requires lens != [] && ValidSlots(lens[..|lens| - 1], before, fanout, replace, strategy)
    requires ValidSlot(last, lens[|lens| - 1], fanout, replace, strategy)
    ensures ValidSlots(lens, slots, fanout, replace, strategy)
    ensures ShiftAll(BlockStarts(lens), slots)
         == ShiftAll(BlockStarts(lens[..|lens| - 1]), before) + Shift(Sum(lens[..|lens| - 1]), last)
  {
    var n := |lens| - 1;
    slots := before + [last];
    assert slots[..n] == before;
    assert BlockStarts(lens)[..n] == BlockStarts(lens[..n]);
  }

  lemma {:induction false} RepeatMembers(vids: seq<nat>, lens: seq<nat>)
    requires |vids| == |lens|
    ensures forall i :: 0 <= i < |Repeat(vids, lens)| ==> Repeat(vids, lens)[i] in vids
  {
    if vids != [] {
      RepeatMembers(vids[..|vids| - 1], lens[..|vids| - 1]);
    }
  }

  /** The chosen slots of each list, concatenated. */
  function PickAll<T>(lists: seq<seq<T>>, slots: seq<seq<nat>>): seq<T>
    requires |lists| == |slots| && forall i :: 0 <= i < |slots| ==> AllBelow(slots[i], |lists[i]|)
  {
    if lists == [] then []
    else
      var n := |lists| - 1;
      PickAll(lists[..n], slots[..n]) + Gather(lists[n], slots[n])
  }

  lemma {:induction false} GatherBlocks<T>(lists: seq<seq<T>>, lens: seq<nat>, slots: seq<seq<nat>>)
    requires |lists| == |slots| == |lens|
    requires forall i :: 0 <= i < |lens| ==> lens[i] == |lists[i]| && AllBelow(slots[i], |lists[i]|)
    ensures |Flatten(lists)| == Sum(lens)
    ensures AllBelow(ShiftAll(BlockStarts(lens), slots), |Flatten(lists)|)
    ensures Gather(Flatten(lists), ShiftAll(BlockStarts(lens), slots)) == PickAll(lists, slots)
    decreases |lists|
  {
    if lists != [] {
      var n := |lists| - 1;
      GatherBlocks(lists[..n], lens[..n], slots[..n]);
      assert BlockStarts(lens)[..n] == BlockStarts(lens[..n]);
      var front, idx := Flatten(lists[..n]), ShiftAll(BlockStarts(lens[..n]), slots[..n]);
      var tail := Shift(Sum(lens[..n]), slots[n]);
      assert Gather(front + lists[n], idx) == Gather(front, idx);
      assert Gather(front + lists[n], tail) == Gather(lists[n], slots[n]);
      assert Gather(front + lists[n], idx + tail) == Gather(front + lists[n], idx) + Gather(front + lists[n], tail);
    }
  }

  // ---------------------------------------------------------------- batch_neighbors

  function Copies(vids: seq<nat>, lens: seq<nat>): (r: seq<seq<nat>>)
    requires |vids| == |lens|
    ensures |r| == |lens| && forall i :: 0 <= i < |r| ==> r[i] == Fill(vids[i], lens[i])
  {
    seq(|lens|, i requires 0 <= i < |lens| => Fill(vids[i], lens[i]))
  }

  lemma {:induction false} RepeatIsCopies(vids: seq<nat>, lens: seq<nat>)
    requires |vids| == |lens|
    ensures Repeat(vids, lens) == Flatten(Copies(vids, lens))
    decreases |vids|
  {
    if vids != [] {
      var n := |vids| - 1;
      RepeatIsCopies(vids[..n], lens[..n]);
      assert Copies(vids, lens)[..n] == Copies(vids[..n], lens[..n]);
    }
  }

  /** A column made of the chosen slots of each list, in order. */
  ghost predicate ColumnKept(lists: seq<seq<nat>>, slots: seq<seq<nat>>, column: seq<nat>) {
    && |slots| == |lists|
    && (forall i :: 0 <= i < |slots| ==> AllBelow(slots[i], |lists[i]|))
    && column == PickAll(lists, slots)
  }

  lemma SlotsFit(lists: seq<seq<nat>>, lens: seq<nat>, slots: seq<seq<nat>>, fanout: nat, replace: bool,
                 strategy: Strategy)
    requires |lists| == |lens| && ValidSlots(lens, slots, fanout, replace, strategy)
    requires forall i :: 0 <= i < |lens| ==> |lists[i]| == lens[i]
    ensures forall i :: 0 <= i < |slots| ==> AllBelow(slots[i], |lists[i]|)
  {
    forall i | 0 <= i < |slots|
      ensures AllBelow(slots[i], |lists[i]|)
    {
      assert ValidSlot(slots[i], lens[i], fanout, replace, strategy);
    }
  }

  lemma SampledColumn(lists: seq<seq<nat>>, lens: seq<nat>, slots: seq<seq<nat>>, fanout: nat, replace: bool,
                      strategy: Strategy, column: seq<nat>)
    requires |lists| == |lens| && ValidSlots(lens, slots, fanout, replace, strategy) && column == Flatten(lists)
    requires forall i :: 0 <= i < |lens| ==> |lists[i]| == lens[i]
    ensures AllBelow(ShiftAll(BlockStarts(lens), slots), |column|)
    ensures ColumnKept(lists, slots, Gather(column, ShiftAll(BlockStarts(lens), slots)))
  {
    SlotsFit(lists, lens, slots, fanout, replace, strategy);
    GatherBlocks(lists, lens, slots);
  }

  /** The result keeps, seed by seed, exactly the given slots of the seed's adjacency. */
  ghost predicate KeepsSlots(csr: Csr, vids: seq<nat>, kept: Fan, slots: seq<seq<nat>>)
    requires Readable(csr) && AllBelow(vids, NumVertices(csr))
  {
    && ColumnKept(Copies(vids, Degrees(csr, vids)), slots, kept.src)
    && ColumnKept(Lists(csr, csr.neighbors, vids), slots, kept.dst)
    && (kept.eid.Some? && csr.eids.Some? ==> ColumnKept(Lists(csr, csr.eids.value, vids), slots, kept.eid.value))
  }

  /** The flat arrays are the seeds' lists laid end to end. */
  ghost predicate LaidOut(csr: Csr, vids: seq<nat>, fan: Fan)
    requires Readable(csr) && AllBelow(vids, NumVertices(csr))
  {
    && fan.src == Repeat(vids, Degrees(csr, vids)) == Flatten(Copies(vids, Degrees(csr, vids)))
    && fan.dst == Flatten(Lists(csr, csr.neighbors, vids))
    && |fan.src| == |fan.dst| == Sum(Degrees(csr, vids))
    && (fan.eid.Some? ==> |fan.eid.value| == |fan.src|)
    && (fan.eid.Some? && csr.eids.Some? ==> fan.eid.value == Flatten(Lists(csr, csr.eids.value, vids)))
  }

  lemma PicksKeepSlots(csr: Csr, vids: seq<nat>, fan: Fan, picks: seq<seq<nat>>, fanout: nat, replace: bool,
                       strategy: Strategy)
    returns (slots: seq<seq<nat>>)
    requires Readable(csr) && AllBelow(vids, NumVertices(csr)) && Distinct(vids) && LaidOut(csr, vids, fan)
    requires ValidPicks(Runs(fan.src), picks, fanout, replace, strategy)
    requires AllBelow(RunShift(Runs(fan.src), picks), |fan.src|)
    ensures ValidSlots(Degrees(csr, vids), slots, fanout, replace, strategy)
    ensures KeepsSlots(csr, vids, GatherFan(fan, RunShift(Runs(fan.src), picks)), slots)
  {
    slots := PicksBySeed(vids, Degrees(csr, vids), picks, fanout, replace, strategy);
    SlotsKeepFan(csr, vids, fan, slots, fanout, replace, strategy);
  }

  lemma SlotsKeepFan(csr: Csr, vids: seq<nat>, fan: Fan, slots: seq<seq<nat>>, fanout: nat, replace: bool,
                     strategy: Strategy)
    requires Readable(csr) && AllBelow(vids, NumVertices(csr)) && LaidOut(csr, vids, fan)
    requires ValidSlots(Degrees(csr, vids), slots, fanout, replace, strategy)
    ensures AllBelow(ShiftAll(BlockStarts(Degrees(csr, vids)), slots), |fan.src|)
    ensures KeepsSlots(csr, vids, GatherFan(fan, ShiftAll(BlockStarts(Degrees(csr, vids)), slots)), slots)
  {
    KeepsSources(vids, Degrees(csr, vids), slots, fanout, replace, strategy, fan.src);
    KeepsListed(csr, csr.neighbors, vids, slots, fanout, replace, strategy, fan.dst);
    if fan.eid.Some? && csr.eids.Some? {
      KeepsListed(csr, csr.eids.value, vids, slots, fanout, replace, strategy, fan.eid.value);
    }
  }

  lemma KeepsSources(vids: seq<nat>, lens: seq<nat>, slots: seq<seq<nat>>, fanout: nat, replace: bool,
                     strategy: Strategy, column: seq<nat>)
    requires |vids| == |lens| && ValidSlots(lens, slots, fanout, replace, strategy)
      && column == Flatten(Copies(vids, lens))
    ensures AllBelow(ShiftAll(BlockStarts(lens), slots), |column|)
    ensures ColumnKept(Copies(vids, lens), slots, Gather(column, ShiftAll(BlockStarts(lens), slots)))
  {
    SampledColumn(Copies(vids, lens), lens, slots, fanout, replace, strategy, column);
  }

  lemma KeepsListed(csr: Csr, values: seq<nat>, vids: seq<nat>, slots: seq<seq<nat>>, fanout: nat, replace: bool,
                    strategy: Strategy, column: seq<nat>)
    requires Readable(csr) && AllBelow(vids, NumVertices(csr)) && |values| == |csr.neighbors|
    requires ValidSlots(Degrees(csr, vids), slots, fanout, replace, strategy)
      && column == Flatten(Lists(csr, values, vids))
    ensures AllBelow(ShiftAll(BlockStarts(Degrees(csr, vids)), slots), |column|)
    ensures ColumnKept(Lists(csr, values, vids), slots,
      Gather(column, ShiftAll(BlockStarts(Degrees(csr, vids)), slots)))
  {
    SampledColumn(Lists(csr, values, vids), Degrees(csr, vids), slots, fanout, replace, strategy, column);
  }

  /** Taking every slot of every list changes nothing. */
  lemma {:induction false} FullSlots(lists: seq<seq<nat>>, lens: seq<nat>, slots: seq<seq<nat>>)
    requires |lists| == |lens| == |slots|
    requires forall i :: 0 <= i < |lens| ==>
      |lists[i]| == lens[i] && slots[i] == Range(0, lens[i]) && AllBelow(slots[i], |lists[i]|)
    ensures PickAll(lists, slots) == Flatten(lists)
    decreases |lists|
  {
    if lists != [] {
      var n := |lists| - 1;
      FullSlots(lists[..n], lens[..n], slots[..n]);
      assert Gather(lists[n], slots[n]) == lists[n];
    }
  }

  function WholeSlots(lens: seq<nat>): (slots: seq<seq<nat>>)
    ensures |slots| == |lens| && forall i :: 0 <= i < |lens| ==> slots[i] == Range(0, lens[i])
  {
    seq(|lens|, i requires 0 <= i < |lens| => Range(0, lens[i]))
  }

  lemma WholeSlotsValid(lens: seq<nat>, fanout: nat, replace: bool, strategy: Strategy)
    requires AllBelow(lens, if replace then 1 else fanout + 1)
    ensures ValidSlots(lens, WholeSlots(lens), fanout, replace, strategy)
  {
    forall i | 0 <= i < |lens|
      ensures ValidSlot(WholeSlots(lens)[i], lens[i], fanout, replace, strategy)
    {
      assert lens[i] < if replace then 1 else fanout + 1;
      RangeInTurn(lens[i], lens[i]);
    }
  }

  lemma WholeColumn(lists: seq<seq<nat>>, lens: seq<nat>)
    requires |lists| == |lens| && forall i :: 0 <= i < |lens| ==> |lists[i]| == lens[i]
    ensures ColumnKept(lists, WholeSlots(lens), Flatten(lists))
  {
    forall i | 0 <= i < |lens|
      ensures AllBelow(WholeSlots(lens)[i], |lists[i]|)
    {
    }
    FullSlots(lists, lens, WholeSlots(lens));
  }

  lemma WholeFanKeepsSlots(csr: Csr, vids: seq<nat>, fan: Fan, fanout: nat, replace: bool, strategy: Strategy)
    returns (slots: seq<seq<nat>>)
    requires Readable(csr) && AllBelow(vids, NumVertices(csr)) 
    requires LaidOut(csr, vids, fan) && AllBelow(Degrees(csr, vids), if replace then 1 else fanout + 1)
    ensures ValidSlots(Degrees(csr, vids), slots, fanout, replace, strategy) && KeepsSlots(csr, vids, fan, slots)
  {
    slots := WholeSlots(Degrees(csr, vids));
    WholeSlotsValid(Degrees(csr, vids), fanout, replace, strategy);
    WholeColumn(Copies(vids, Degrees(csr, vids)), Degrees(csr, vids));
    WholeListed(csr, csr.neighbors, vids);
    if csr.eids.Some? {
      WholeListed(csr, csr.eids.value, vids);
    }
  }

  lemma WholeListed(csr: Csr, values: seq<nat>, vids: seq<nat>)
    requires Readable(csr) && AllBelow(vids, NumVertices(csr)) && |values| == |csr.neighbors|
    ensures ColumnKept(Lists(csr, values, vids), WholeSlots(Degrees(csr, vids)), Flatten(Lists(csr, values, vids)))
  {
    WholeColumn(Lists(csr, values, vids), Degrees(csr, vids));
  }

  lemma FlattenedLength(vids: seq<nat>, lists: seq<seq<nat>>, lens: seq<nat>)
    requires |vids| == |lists| == |lens| && forall i :: 0 <= i < |lens| ==> |lists[i]| == lens[i]
    ensures |Flatten(lists)| == |Repeat(vids, lens)| == Sum(lens)
  {
    RepeatAligned(vids, lists, lens);
    RepeatLength(vids, lens);
  }

  lemma FanAligned(csr: Csr, vids: seq<nat>, wantEids: bool)
    requires Readable(csr) && AllBelow(vids, NumVertices(csr)) && (wantEids ==> csr.eids.Some?)
    ensures LaidOut(csr, vids, FanOut(csr, vids, wantEids))
  {
    FanOutIsConcatenation(csr, vids, wantEids);
    RepeatIsCopies(vids, Degrees(csr, vids));
    ListedLength(csr, csr.neighbors, vids);
    if wantEids {
      ListedLength(csr, csr.eids.value, vids);
    }
  }

  lemma ListedLength(csr: Csr, values: seq<nat>, vids: seq<nat>)
    requires Readable(csr) && AllBelow(vids, NumVertices(csr)) && |values| == |csr.neighbors|
    ensures |Flatten(Lists(csr, values, vids))| == |Repeat(vids, Degrees(csr, vids))| == Sum(Degrees(csr, vids))
  {
    FlattenedLength(vids, Lists(csr, values, vids), Degrees(csr, vids));
  }

  /** The seeds and flags `batch_neighbors` accepts. */
  ghost predicate Accepted(csr: Csr, vids: seq<nat>, returnEids: bool, fanout: Option<int>)
    requires Readable(csr)
  {
    && (fanout.Some? ==> fanout.value >= 0)
    && AllBelow(vids, NumVertices(csr))
    && (returnEids && Sum(Degrees(csr, vids)) > 0 ==> csr.eids.Some?)
  }

  /** The unsampled fan: nothing at all if no seed has a neighbour. */
  function WholeFan(csr: Csr, vids: seq<nat>, returnEids: bool): (fan: Fan)
    requires Readable(csr) && AllBelow(vids, NumVertices(csr))
    requires returnEids && Sum(Degrees(csr, vids)) > 0 ==> csr.eids.Some?
    ensures fan.eid.Some? <==> returnEids
  {
    if Sum(Degrees(csr, vids)) == 0 then Fan([], [], if returnEids then Some([]) else None)
        else FanOut(csr, vids, returnEids)
  }

  /** Whether the segments are sampled: not if all of them fit the fanout. */
  predicate Samples(csr: Csr, vids: seq<nat>, fanout: Option<int>, replace: bool, strategy: Strategy)
    requires Readable(csr) && AllBelow(vids, NumVertices(csr))
  {
    && fanout.Some? && fanout.value > 0 && strategy != All
    && Sum(Degrees(csr, vids)) > 0 && (replace || !AllBelow(Degrees(csr, vids), fanout.value + 1))
  }

  /** `kept` holds an admissible pick from each run of equal sources, in run order. */
  ghost predicate SampledFrom(whole: Fan, fanout: nat, replace: bool, strategy: Strategy, kept: Fan)
    requires |whole.src| == |whole.dst| && (whole.eid.Some? ==> |whole.eid.value| == |whole.src|)
  {
    exists picks ::
      && ValidPicks(Runs(whole.src), picks, fanout, replace, strategy)
      && AllBelow(RunShift(Runs(whole.src), picks), |whole.src|)
      && kept == GatherFan(whole, RunShift(Runs(whole.src), picks))
  }

  lemma WholeFanLaidOut(csr: Csr, vids: seq<nat>, returnEids: bool)
    requires Readable(csr) && AllBelow(vids, NumVertices(csr))
    requires returnEids && Sum(Degrees(csr, vids)) > 0 ==> csr.eids.Some?
    ensures LaidOut(csr, vids, WholeFan(csr, vids, returnEids)) && OnlyEdges(csr, vids, WholeFan(csr, vids, returnEids))
  {
    FanAligned(csr, vids, false);
    if Sum(Degrees(csr, vids)) > 0 {
      FanAligned(csr, vids, returnEids);
      FanOutOnlyEdges(csr, vids, returnEids);
    } else if csr.eids.Some? {
      FanAligned(csr, vids, true);
    }
  }

  method BatchNeighbors(csr: Csr, vids: seq<nat>, returnEids: bool, fanout: Option<int>, replace: bool,
                        strategy: Strategy)
    returns (r: Result<Fan>)
    requires Readable(csr)
    ensures r.Ok? <==> Accepted(csr, vids, returnEids, fanout)
    ensures r.Ok? ==> OnlyEdges(csr, vids, r.value) && (r.value.eid.Some? <==> returnEids)
    ensures r.Ok? && !Samples(csr, vids, fanout, replace, strategy) ==> r.value == WholeFan(csr, vids, returnEids)
    ensures r.Ok? && Samples(csr, vids, fanout, replace, strategy) ==>
      && LaidOut(csr, vids, WholeFan(csr, vids, returnEids))
      && SampledFrom(WholeFan(csr, vids, returnEids), fanout.value, replace, strategy, r.value)
    ensures r.Ok? && (fanout == None || fanout == Some(0) || strategy == All) ==>
      && r.value.src == Repeat(vids, Degrees(csr, vids))
      && r.value.dst == Flatten(Lists(csr, csr.neighbors, vids))
      && (returnEids && csr.eids.Some? ==> r.value.eid == Some(Flatten(Lists(csr, csr.eids.value, vids))))
    ensures r.Ok? && fanout.Some? && fanout.value > 0 && strategy != All ==> |r.value.src| <= |vids| * fanout.value
    ensures r.Ok? && fanout.Some? && fanout.value > 0 && strategy != All && Distinct(vids) ==>
      exists slots :: ValidSlots(Degrees(csr, vids), slots, fanout.value, replace, strategy)
          && KeepsSlots(csr, vids, r.value, slots)
  {
    if fanout.Some? && fanout.value < 0 {
      return Err("CDB-7083");
    }
    if i :| 0 <= i < |vids| && vids[i] >= NumVertices(csr) {
      return Err("CDB-7083");
    }
    var lens := Degrees(csr, vids);
    var total := Sum(lens);
    if total > 0 && returnEids && csr.eids == None {
      return Err("CDB-7083");
    }
    var fan := Selected(csr, vids, returnEids, fanout, replace, strategy);
    r := Ok(fan);
  }

  /** The part of `batch_neighbors` that cannot fail. */
  method Selected(csr: Csr, vids: seq<nat>, returnEids: bool, fanout: Option<int>, replace: bool, strategy: Strategy)
    returns (fan: Fan)
    requires Readable(csr) && Accepted(csr, vids, returnEids, fanout)
    ensures OnlyEdges(csr, vids, fan) && (fan.eid.Some? <==> returnEids)
    ensures !Samples(csr, vids, fanout, replace, strategy) ==> fan == WholeFan(csr, vids, returnEids)
    ensures Samples(csr, vids, fanout, replace, strategy) ==>
      && LaidOut(csr, vids, WholeFan(csr, vids, returnEids))
      && SampledFrom(WholeFan(csr, vids, returnEids), fanout.value, replace, strategy, fan)
    ensures fanout == None || fanout == Some(0) || strategy == All ==> LaidOut(csr, vids, fan)
    ensures fanout.Some? && fanout.value > 0 && strategy != All ==> |fan.src| <= |vids| * fanout.value
    ensures fanout.Some? && fanout.value > 0 && strategy != All && Distinct(vids) ==>
      HasSlots(csr, vids, fan, fanout.value, replace, strategy)
  {
    var whole := WholeFan(csr, vids, returnEids);
    WholeFanLaidOut(csr, vids, returnEids);
    fan := whole;
    if fanout.Some? && fanout.value > 0 && strategy != All {
      if Sum(Degrees(csr, vids)) == 0 || (!replace && AllBelow(Degrees(csr, vids), fanout.value + 1)) {
        WholeFanFits(csr, vids, whole, fanout.value, replace, strategy);
      } else {
        fan := KeepSegments(csr, vids, whole, fanout.value, replace, strategy);
      }
    }
  }

  /** The fan keeps some admissible slots of every seed. */
  ghost predicate HasSlots(csr: Csr, vids: seq<nat>, fan: Fan, fanout: nat, replace: bool, strategy: Strategy)
    requires Readable(csr) && AllBelow(vids, NumVertices(csr))
  {
    exists slots :: ValidSlots(Degrees(csr, vids), slots, fanout, replace, strategy)
      && KeepsSlots(csr, vids, fan, slots)
  }

  lemma WholeFanFits(csr: Csr, vids: seq<nat>, fan: Fan, fanout: nat, replace: bool, strategy: Strategy)
    requires Readable(csr) && AllBelow(vids, NumVertices(csr)) && LaidOut(csr, vids, fan) && fanout > 0
    requires Sum(Degrees(csr, vids)) == 0 || (!replace && AllBelow(Degrees(csr, vids), fanout + 1))
    ensures |fan.src| <= |vids| * fanout && HasSlots(csr, vids, fan, fanout, replace, strategy)
  {
    SumBounds(Degrees(csr, vids));
    SumUpTo(Degrees(csr, vids), fanout);
    var slots := WholeFanKeepsSlots(csr, vids, fan, fanout, replace, strategy);
  }

  /** The fan of a sampling call, sampled. */
  method KeepSegments(csr: Csr, vids: seq<nat>, fan: Fan, fanout: nat, replace: bool, strategy: Strategy)
    returns (kept: Fan)
    requires Readable(csr) && AllBelow(vids, NumVertices(csr)) && LaidOut(csr, vids, fan) && OnlyEdges(csr, vids, fan)
    ensures OnlyEdges(csr, vids, kept) && (kept.eid.Some? <==> fan.eid.Some?) && |kept.src| <= |vids| * fanout
    ensures SampledFrom(fan, fanout, replace, strategy, kept)
    ensures Distinct(vids) ==> HasSlots(csr, vids, kept, fanout, replace, strategy)
  {
    ghost var picks;
    kept, picks := SampleSegments(fan, fanout, replace, strategy);
    SampledOnlyEdges(csr, vids, fan, RunShift(Runs(fan.src), picks));
    PicksUpTo(Runs(fan.src), picks, fanout, replace, strategy);
    RunsOfRepeat(vids, Degrees(csr, vids));
    TimesGrows(|Runs(fan.src)|, |vids|, fanout);
    if Distinct(vids) {
      ghost var slots := PicksKeepSlots(csr, vids, fan, picks, fanout, replace, strategy);
    }
  }

  lemma {:induction false} SumUpTo(lens: seq<nat>, n: nat)
    requires AllBelow(lens, n + 1)
    ensures Sum(lens) <= |lens| * n
  {
    if lens != [] {
      SumUpTo(lens[..|lens| - 1], n);
    }
  }

  lemma {:induction false} PicksUpTo(runs: seq<Run>, picks: seq<seq<nat>>, fanout: nat, replace: bool,
                                     strategy: Strategy)
    requires ValidPicks(runs, picks, fanout, replace, strategy)
    ensures |RunShift(runs, picks)| <= |runs| * fanout
  {
    if picks != [] {
      var n := |picks| - 1;
      PicksUpTo(runs[..n], picks[..n], fanout, replace, strategy);
      PickUpTo(picks[n], runs[n].end - runs[n].start, fanout, replace, strategy);
      TimesNext(n, fanout);
    }
  }

  lemma PickUpTo(pick: seq<nat>, size: nat, fanout: nat, replace: bool, strategy: Strategy)
    requires ValidPick(pick, size, fanout, replace, strategy)
    ensures |pick| <= fanout
  {
  }

  lemma TimesNext(n: nat, m: nat)
    ensures (n + 1) * m == n * m + m
  {
  }

  /** Repeating the seeds makes at most one run of each. */
  lemma {:induction false} RunsOfRepeat(vids: seq<nat>, lens: seq<nat>)
    requires |vids| == |lens|
    ensures |Runs(Repeat(vids, lens))| <= |vids|
    decreases |vids|
  {
    if vids != [] {
      var n := |vids| - 1;
      RunsOfRepeat(vids[..n], lens[..n]);
      RunsOfFill(Repeat(vids[..n], lens[..n]), vids[n], lens[n]);
    }
  }

  lemma {:induction false} RunsOfFill(src: seq<nat>, x: nat, count: nat)
    ensures |Runs(src + Fill(x, count))| <= |Runs(src)| + 1
    ensures count > 0 ==> (src + Fill(x, count))[|src| + count - 1] == x
    decreases count
  {
    var whole := src + Fill(x, count);
    if count == 0 {
      assert whole == src;
    } else {
      RunsOfFill(src, x, count - 1);
      assert whole[..|whole| - 1] == src + Fill(x, count - 1);
    }
  }

  lemma SampledOnlyEdges(csr: Csr, vids: seq<nat>, fan: Fan, idx: seq<nat>)
    requires Readable(csr) && OnlyEdges(csr, vids, fan) && AllBelow(idx, |fan.src|)
      && (fan.eid.Some? ==> |fan.eid.value| == |fan.src|)
    ensures OnlyEdges(csr, vids, GatherFan(fan, idx))
  {
    forall i | 0 <= i < |idx|
      ensures FanEdge(csr, vids, GatherFan(fan, idx).src[i], GatherFan(fan, idx).dst[i])
    {
      assert FanEdge(csr, vids, fan.src[idx[i]], fan.dst[idx[i]]);
    }
  }

  lemma {:induction false} SumBounds(lens: seq<nat>)
    ensures AllBelow(lens, Sum(lens) + 1)
  {
    if lens != [] {
      SumBounds(lens[..|lens| - 1]);
    }
  }
}
