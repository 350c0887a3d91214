/** When the address ranges of packets in flight stay apart. */
module TxRanges {
  import opened Options
  import opened TxSizes
  import opened TxModel
  import opened TxSafety
  import opened TxTheorems
  import opened TxPromises
  import opened TxMemory

  /** In every run that never maps with the last memory descriptor, nor a packet of empty
      buffers, memory descriptors and packets are in lockstep. */
  lemma {:induction false} RunLockstep(cfg: Config, steps: seq<Step>, s: State)
    requires cfg.vtd && Run(cfg, Init(), steps) == Some(s) && Fed(cfg, steps)
    ensures Inv(cfg, s) && Lockstep(s)
  {
    RunInv(cfg, steps, s);
    if steps != [] {
      var t := Run(cfg, Init(), steps[..|steps| - 1]).value;
      RunLockstep(cfg, steps[..|steps| - 1], t);
      NextIsCount(t);
      StepLockstep(cfg, t, steps[|steps| - 1]);
    }
  }

  /** Memory descriptors and packets were in lockstep in every state along the run. */
  ghost predicate AlwaysLockstep(cfg: Config, steps: seq<Step>) {
    && (steps == [] || AlwaysLockstep(cfg, steps[..|steps| - 1]))
    && var t := Run(cfg, Init(), steps);
       t.Some? && Lockstep(t.value)
  }

  /** Over whole runs: the lockstep holds at every moment if and only if every mapping found
      more than one memory descriptor free and none was for a packet of empty buffers. */
  lemma {:induction false} LockstepExactly(cfg: Config, steps: seq<Step>, s: State)
    requires cfg.vtd && Run(cfg, Init(), steps) == Some(s)
    ensures AlwaysLockstep(cfg, steps) <==> Fed(cfg, steps)
    decreases |steps|
  {
    if steps == [] {
      RunLockstep(cfg, steps, s);
    } else {
      var before, step := steps[..|steps| - 1], steps[|steps| - 1];
      var t := Run(cfg, Init(), before).value;
      LockstepExactly(cfg, before, t);
      if Fed(cfg, before) {
        RunLockstep(cfg, before, t);
        NextIsCount(t);
        StepLockstep(cfg, t, step);
      }
    }
  }

  // ---------------------------------------------------------------- tags

  /** The last mapping since the start or a clear, apart from ones that left everything as it
      was, failed for want of a device address. */
  predicate TagLeft(steps: seq<Step>) {
    if steps == [] then false
    else
      var before := steps[..|steps| - 1];
      match steps[|steps| - 1]
      case FailStep(_, tagged) => tagged || TagLeft(before)
      case MapStep(_) => false
      case ClearStep => false
      case _ => TagLeft(before)
  }

  predicate NextTagged(mem: MemRing) {
    mem.use < |mem.io| && mem.io[mem.use].Active?
  }

  lemma GrabUntags(mem: MemRing, maps: seq<Mem>, unmapped: nat, pkt: Packet, start: nat, count: nat)
    requires MemOk(mem, maps, unmapped) && mem.numFree > 1
    ensures !NextTagged(Grab(mem, pkt, start, count))
  {
    var n := |maps| - unmapped;
    assert DistMem(mem.free, mem.use) == n && DistMem(mem.free, SkipMem(mem.free, n + 1)) == n + 1;
  }

  lemma UnmapTag(cfg: Config, s: State)
    requires cfg.vtd && Control(s) && Lockstep(s) && CanUnmap(cfg, s)
    ensures NextTagged(Unmap(s).mem) <==> NextTagged(s.mem)
  {
    UnmapsOldest(s);
  }

  lemma OthersKeepMem(cfg: Config, s: State, step: Step)
    requires Can(cfg, s, step) && !step.MapStep? && !step.FailStep? && !step.LoseStep?
    requires !step.UnmapStep? && !step.ClearStep?
    ensures Do(cfg, s, step).mem == s.mem
  {
  }

  lemma StepTag(cfg: Config, s: State, step: Step)
    requires cfg.vtd && Control(s) && Lockstep(s) && Can(cfg, s, step)
    requires !step.LoseStep? && (step.MapStep? ==> s.mem.numFree > 1)
    ensures NextTagged(Do(cfg, s, step).mem) <==>
            !step.MapStep? && !step.ClearStep? && (NextTagged(s.mem) || (step.FailStep? && step.tagged))
  {
    match step
    case MapStep(segs) => GrabUntags(s.mem, s.log.maps, s.log.unmapped, s.out.pkt, s.ring.next, |segs|);
    case UnmapStep => UnmapTag(cfg, s);
    case FailStep(_, _) =>
    case ClearStep =>
    case _ => OthersKeepMem(cfg, s, step);
  }

  /** In every run in lockstep, the next memory descriptor to use carries a tag exactly then. */
  lemma {:induction false} TagLeftExactly(cfg: Config, steps: seq<Step>, s: State)
    requires cfg.vtd && Run(cfg, Init(), steps) == Some(s) && Fed(cfg, steps)
    ensures NextTagged(s.mem) <==> TagLeft(steps)
    decreases |steps|
  {
    if steps != [] {
      var before := steps[..|steps| - 1];
      var t := Run(cfg, Init(), before).value;
      TagLeftExactly(cfg, before, t);
      RunLockstep(cfg, before, t);
      StepTag(cfg, t, steps[|steps| - 1]);
    }
  }

  /** The memory descriptor at position i belongs to a packet still mapped. */
  predicate InUse(s: State, i: nat) {
    DistMem(s.mem.free, i) < |s.log.maps| - s.log.unmapped
  }

  /** So a clear, which completes the tagged memory descriptors, completes those of the packets
      mapped and no other if and only if no tag was left. */
  lemma ClearCompletes(cfg: Config, steps: seq<Step>, s: State)
    requires cfg.vtd && Run(cfg, Init(), steps) == Some(s) && Fed(cfg, steps)
    ensures |s.mem.io| == MEMS
    ensures (forall i :: 0 <= i < MEMS ==> (s.mem.io[i].Active? <==> InUse(s, i))) <==> !TagLeft(steps)
  {
    RunLockstep(cfg, steps, s);
    TagLeftExactly(cfg, steps, s);
    assert DistMem(s.mem.free, s.mem.use) == |s.log.maps| - s.log.unmapped;
    assert s.mem.io[s.mem.use].Active? <==> TagLeft(steps);
  }

  lemma NextIsCount(s: State)
    requires Control(s) && s.ring.dirty == s.log.done % RING
    ensures s.ring.next == |s.log.hist| % RING
  {
    SkipMod(s.log.done, |s.log.hist| - s.log.done);
  }

  /** Every active range lies inside the array of kNumTxRanges entries. */
  lemma RangesInArray(s: State, a: nat)
    requires Lockstep(s) && a < |s.log.maps|
    ensures s.log.maps[a].start + s.log.maps[a].count <= RANGES
  {
  }

  /** Apart from the oldest mapped packet, ranges in use never overlap. */
  lemma YoungerRangesDisjoint(s: State, a: nat, b: nat)
    requires Control(s) && Lockstep(s)
    requires s.log.unmapped < a < b < |s.log.maps|
    ensures Disjoint(s.log.maps[a], s.log.maps[b])
  {
    var maps, bases, end := s.log.maps, s.log.bases, End(s.out, |s.log.hist|);
    BasesApart(maps, bases, end, s.log.unmapped, a);
    BasesApart(maps, bases, end, a, b);
    BaseBelowEnd(maps, bases, end, b);
    OneTurnDisjoint(bases[a], maps[a].count, bases[b], maps[b].count);
  }

  /** The range a packet would take starts below the range of the packet being released and
      reaches into it. */
  predicate Blocked(mem: MemRing, next: nat, n: nat) {
    && mem.numFree < MEMS && mem.free < |mem.io| && mem.io[mem.free].Active?
    && next < mem.io[mem.free].start < next + n
  }

  lemma NewMeetsOldest(s: State, n: nat)
    requires Control(s) && Lockstep(s) && s.out.Holding? && 1 <= n <= MAX_SEGS
    requires s.ring.next == |s.log.hist| % RING
    requires s.log.unmapped < |s.log.maps|
    ensures s.mem.io[s.mem.free] == s.log.maps[s.log.unmapped]
    ensures Disjoint(s.log.maps[s.log.unmapped], Active(0, s.ring.next, n)) <==> !Blocked(s.mem, s.ring.next, n)
  {
    var k := s.log.unmapped;
    BaseBelowEnd(s.log.maps, s.log.bases, |s.log.hist|, k);
    assert DistMem(s.mem.free, s.mem.free) == 0;
    NextTurnMeets(s.log.bases[k], s.log.maps[k].count, |s.log.hist|, n);
  }

  lemma NewMissesYounger(s: State, n: nat, a: nat)
    requires Control(s) && Lockstep(s) && s.out.Holding? && 1 <= n <= MAX_SEGS
    requires s.ring.next == |s.log.hist| % RING
    requires s.log.unmapped < a < |s.log.maps|
    ensures Disjoint(s.log.maps[a], Active(0, s.ring.next, n))
  {
    BasesApart(s.log.maps, s.log.bases, |s.log.hist|, s.log.unmapped, a);
    BaseBelowEnd(s.log.maps, s.log.bases, |s.log.hist|, a);
    OneTurnDisjoint(s.log.bases[a], s.log.maps[a].count, |s.log.hist|, n);
  }

  /** Mapping a packet keeps all ranges in use disjoint exactly when it is not blocked by
      the packet whose descriptors are being released. */
  lemma RangesStayDisjoint(cfg: Config, s: State, segs: seq<Segment>)
    requires cfg.vtd && CanMap(s, segs) && s.mem.numFree > 1
    requires Control(s) && Lockstep(s) && s.ring.next == |s.log.hist| % RING
    requires RangesDisjoint(s.log)
    ensures RangesDisjoint(Map(cfg, s, segs).log) <==> !Blocked(s.mem, s.ring.next, |segs|)
  {
    var log, k, n := Map(cfg, s, segs).log, s.log.unmapped, |s.log.maps|;
    if k < n {
      NewMeetsOldest(s, |segs|);
      forall a | k < a < n ensures Disjoint(s.log.maps[a], log.maps[n]) {
        NewMissesYounger(s, |segs|, a);
      }
      assert Disjoint(log.maps[k], log.maps[n]) <==> !Blocked(s.mem, s.ring.next, |segs|);
    } else {
      assert DistMem(s.mem.free, s.mem.free) == 0;
    }
  }

  /** While the handler stands between packets, no packet is blocked. */
  lemma BetweenPacketsNeverBlocked(s: State, n: nat)
    requires Control(s) && Lockstep(s) && s.out.Holding? && 1 <= n <= MAX_SEGS
    requires s.ring.next == |s.log.hist| % RING
    requires s.log.unmapped < |s.log.queue| ==> s.log.bases[s.log.unmapped] == UnmappedCount(s.irq, s.log.done)
    ensures !Blocked(s.mem, s.ring.next, n)
  {
    if s.log.unmapped < |s.log.maps| {
      NewMeetsOldest(s, n);
      var k := s.log.unmapped;
      BaseBelowEnd(s.log.maps, s.log.bases, |s.log.hist|, k);
      OneTurnDisjoint(s.log.bases[k], s.log.maps[k].count, |s.log.hist|, n);
    } else {
      assert DistMem(s.mem.free, s.mem.free) == 0;
    }
  }

  // ---------------------------------------------------------------- in every run

  /** In every run that never maps with the last memory descriptor: the descriptors in use
      are as many as the packets mapped, all ranges lie inside the array, those of the younger
      packets are disjoint, and a descriptor given back is that of the packet being freed. */
  lemma LockstepEverywhere(cfg: Config, steps: seq<Step>, s: State, a: nat, b: nat)
    requires cfg.vtd && Run(cfg, Init(), steps) == Some(s) && Fed(cfg, steps)
    ensures MEMS - s.mem.numFree == |s.log.queue| + Pending(s.out) - s.log.unmapped && s.mem.numFree >= 1
    ensures a < |s.log.maps| ==> s.log.maps[a].Active? && s.log.maps[a].start + s.log.maps[a].count <= RANGES
    ensures s.log.unmapped < a < b < |s.log.maps| && s.log.maps[b].Active? ==> Disjoint(s.log.maps[a], s.log.maps[b])
    ensures CanUnmap(cfg, s) ==>
              && s.mem.io[s.mem.free].Active? && s.irq.m.Some?
              && s.mem.io[s.mem.free].pkt == s.irq.m.value
    ensures a < |s.log.queue| ==>
              && a < |s.log.maps| == |s.log.bases| && s.log.maps[a].start == s.log.bases[a] % 1024
              && s.log.bases[a] + s.log.maps[a].count <= |s.log.hist|
              && forall c :: s.log.bases[a] <= c < s.log.bases[a] + s.log.maps[a].count ==>
                   && s.log.hist[c].pkt == s.log.maps[a].pkt
                   && (s.log.hist[c].last <==> c == s.log.bases[a] + s.log.maps[a].count - 1)
  {
    RunLockstep(cfg, steps, s);
    if a < |s.log.maps| {
      RangesInArray(s, a);
    }
    if s.log.unmapped < a < b < |s.log.maps| {
      YoungerRangesDisjoint(s, a, b);
    }
    if CanUnmap(cfg, s) {
      UnmapReleasesOwnPacket(s);
    }
  }

  // ---------------------------------------------------------------- disjoint ranges over runs

  /** No mapping of the run was blocked. */
  predicate NeverBlocked(cfg: Config, steps: seq<Step>) {
    steps == [] ||
    (NeverBlocked(cfg, steps[..|steps| - 1]) &&
     (steps[|steps| - 1].MapStep? ==>
        var t := Run(cfg, Init(), steps[..|steps| - 1]);
        t.Some? && !Blocked(t.value.mem, t.value.ring.next, |steps[|steps| - 1].segs|)))
  }

  /** The ranges in use were pairwise disjoint in every state along the run. */
  ghost predicate AlwaysDisjoint(cfg: Config, steps: seq<Step>) {
    && (steps == [] || AlwaysDisjoint(cfg, steps[..|steps| - 1]))
    && var t := Run(cfg, Init(), steps);
       t.Some? && RangesDisjoint(t.value.log)
  }

  /** Only a mapping that takes a memory descriptor adds ranges. */
  lemma OthersStayDisjoint(cfg: Config, s: State, step: Step)
    requires Can(cfg, s, step) && !step.MapStep? && !step.LoseStep? && RangesDisjoint(s.log)
    ensures RangesDisjoint(Do(cfg, s, step).log)
  {
  }

  /** In every run whose mappings found memory descriptors to spare, the ranges of all packets
      in flight are pairwise disjoint at every moment if and only if no mapping was blocked by
      the packet whose descriptors were being released. */
  lemma {:induction false} RangesDisjointExactly(cfg: Config, steps: seq<Step>, s: State)
    requires cfg.vtd && Run(cfg, Init(), steps) == Some(s) && Fed(cfg, steps)
    ensures AlwaysDisjoint(cfg, steps) <==> NeverBlocked(cfg, steps)
    decreases |steps|
  {
    if steps != [] {
      var before, step := steps[..|steps| - 1], steps[|steps| - 1];
      var t := Run(cfg, Init(), before).value;
      RangesDisjointExactly(cfg, before, t);
      if AlwaysDisjoint(cfg, before) {
        LastState(cfg, before, t);
        if step.MapStep? {
          RunLockstep(cfg, before, t);
          NextIsCount(t);
          RangesStayDisjoint(cfg, t, step.segs);
        } else {
          OthersStayDisjoint(cfg, t, step);
        }
      }
    }
  }

  lemma LastState(cfg: Config, steps: seq<Step>, s: State)
    requires AlwaysDisjoint(cfg, steps) && Run(cfg, Init(), steps) == Some(s)
    ensures RangesDisjoint(s.log)
  {
  }

  // ---------------------------------------------------------------- who wrote a range last

  predicate Covers(start: nat, count: nat, i: int) {
    start <= i < start + count
  }

  /** The memory descriptor refers to entry i. */
  predicate Uses(m: Mem, i: int) {
    m.Active? && Covers(m.start, m.count, i)
  }

  /** The last of the writes to txMemRange that touched entry i. */
  function LastWrite(writes: seq<Write>, i: int): Option<Write> {
    if writes == [] then None
    else
      var n := |writes| - 1;
      if Covers(writes[n].start, writes[n].count, i) then Some(writes[n]) else LastWrite(writes[..n], i)
  }

  /** Entry i holds what was written for grab k. */
  predicate Holds(writes: seq<Write>, i: int, k: nat) {
    var w := LastWrite(writes, i);
    w.Some? && w.value.grab == Some(k)
  }

  /** Every packet still mapped finds its own pages in the range array. */
  ghost predicate PagesKept(log: History) {
    forall k, i :: log.unmapped <= k < |log.maps| && Uses(log.maps[k], i) ==> Holds(log.writes, i, k)
  }

  lemma HoldsNext(writes: seq<Write>, w: Write, i: int, k: nat)
    ensures Holds(writes + [w], i, k) <==>
            if Covers(w.start, w.count, i) then w.grab == Some(k) else Holds(writes, i, k)
  {
    assert (writes + [w])[..|writes|] == writes;
  }

  /** Two ranges share an entry exactly if they are not disjoint. */
  lemma DisjointShareNone(a: Mem, b: Mem)
    requires a.Active? && b.Active? && a.count >= 1 && b.count >= 1
    ensures Disjoint(a, b) ==> forall i :: Uses(a, i) ==> !Uses(b, i)
    ensures !Disjoint(a, b) ==> exists i :: Uses(a, i) && Uses(b, i)
  {
    var i := if a.start > b.start then a.start else b.start;
    assert Disjoint(a, b) || (Uses(a, i) && Uses(b, i));
  }

  /** A write for no packet in use keeps the pages of those in use exactly if it misses all
      their ranges. */
  lemma WriteKeeps(log: History, w: Write, n: nat)
    requires PagesKept(log) && log.unmapped <= n <= |log.maps| && w.count >= 1
    requires forall k :: log.unmapped <= k < n ==> log.maps[k].Active? && log.maps[k].count >= 1 && w.grab != Some(k)
    ensures (forall k, i :: log.unmapped <= k < n && Uses(log.maps[k], i) ==> Holds(log.writes + [w], i, k))
       <==> (forall k :: log.unmapped <= k < n ==> Disjoint(log.maps[k], Active(0, w.start, w.count)))
  {
    forall k, i | log.unmapped <= k < n && Uses(log.maps[k], i)
      ensures Holds(log.writes + [w], i, k) <==> !Covers(w.start, w.count, i)
    {
      assert Holds(log.writes, i, k);
      HoldsNext(log.writes, w, i, k);
    }
    forall k | log.unmapped <= k < n
      ensures Disjoint(log.maps[k], Active(0, w.start, w.count)) <==>
              forall i :: Uses(log.maps[k], i) ==> !Covers(w.start, w.count, i)
    {
      DisjointShareNone(log.maps[k], Active(0, w.start, w.count));
    }
  }

  /** A packet that would take n ranges misses all ranges in use exactly when not blocked. */
  lemma MissesAll(s: State, n: nat)
    requires Control(s) && Lockstep(s) && s.out.Holding? && 1 <= n <= MAX_SEGS
    requires s.ring.next == |s.log.hist| % RING
    ensures (forall k :: s.log.unmapped <= k < |s.log.maps| ==> Disjoint(s.log.maps[k], Active(0, s.ring.next, n)))
       <==> !Blocked(s.mem, s.ring.next, n)
  {
    var k := s.log.unmapped;
    if k < |s.log.maps| {
      NewMeetsOldest(s, n);
      forall a | k < a < |s.log.maps| ensures Disjoint(s.log.maps[a], Active(0, s.ring.next, n)) {
        NewMissesYounger(s, n, a);
      }
    }
  }

  /** A mapping that succeeds keeps everybody's pages exactly when it is not blocked. */
  lemma MapKeepsPages(cfg: Config, s: State, segs: seq<Segment>)
    requires cfg.vtd && CanMap(s, segs) && s.mem.numFree > 1
    requires Control(s) && Lockstep(s) && s.ring.next == |s.log.hist| % RING && PagesKept(s.log)
    ensures PagesKept(Map(cfg, s, segs).log) <==> !Blocked(s.mem, s.ring.next, |segs|)
  {
    var log, n := Map(cfg, s, segs).log, |s.log.maps|;
    var w := Write(s.ring.next, |segs|, Some(n));
    WriteKeeps(s.log, w, n);
    MissesAll(s, |segs|);
    forall k | s.log.unmapped <= k < n ensures log.maps[k] == s.log.maps[k] {
    }
    forall i | Covers(w.start, w.count, i) ensures Holds(log.writes, i, n) {
      HoldsNext(s.log.writes, w, i, n);
    }
  }

  /** So does one that fails after its pages were written. */
  lemma FailKeepsPages(cfg: Config, s: State, n: nat, tagged: bool)
    requires CanAttempt(cfg, s) && n <= MAX_SEGS
    requires Control(s) && Lockstep(s) && s.ring.next == |s.log.hist| % RING && PagesKept(s.log)
    ensures PagesKept(Fail(s, n, tagged).log) <==> !Blocked(s.mem, s.ring.next, n)
  {
    var w := Write(s.ring.next, n, None);
    if n == 0 {
      forall k: nat, i ensures Holds(s.log.writes + [w], i, k) <==> Holds(s.log.writes, i, k) {
        HoldsNext(s.log.writes, w, i, k);
      }
    } else {
      WriteKeeps(s.log, w, |s.log.maps|);
      MissesAll(s, n);
    }
  }

  // ---------------------------------------------------------------- pages over runs

  /** No failed mapping of the run was blocked. */
  predicate NeverSpoiled(cfg: Config, steps: seq<Step>) {
    steps == [] ||
    (NeverSpoiled(cfg, steps[..|steps| - 1]) &&
     (steps[|steps| - 1].FailStep? ==>
        var t := Run(cfg, Init(), steps[..|steps| - 1]);
        t.Some? && !Blocked(t.value.mem, t.value.ring.next, steps[|steps| - 1].n)))
  }

  /** In every state along the run all packets mapped found their own pages. */
  ghost predicate AlwaysKept(cfg: Config, steps: seq<Step>) {
    && (steps == [] || AlwaysKept(cfg, steps[..|steps| - 1]))
    && var t := Run(cfg, Init(), steps);
       t.Some? && PagesKept(t.value.log)
  }

  lemma LastKept(cfg: Config, steps: seq<Step>, s: State)
    requires AlwaysKept(cfg, steps) && Run(cfg, Init(), steps) == Some(s)
    ensures PagesKept(s.log)
  {
  }

  /** No other step writes to txMemRange or maps a packet. */
  lemma OthersKeepPages(cfg: Config, s: State, step: Step)
    requires Can(cfg, s, step) && !step.MapStep? && !step.FailStep? && !step.LoseStep? && PagesKept(s.log)
    ensures PagesKept(Do(cfg, s, step).log)
  {
  }

  /** In every run in lockstep, txMemRange holds each packet's own pages from its mapping until
      it is unmapped if and only if no mapping, successful or not, was blocked by the packet
      whose descriptors were being released. */
  lemma {:induction false} PagesKeptUntilUnmapped(cfg: Config, steps: seq<Step>, s: State)
    requires cfg.vtd && Run(cfg, Init(), steps) == Some(s) && Fed(cfg, steps)
    ensures AlwaysKept(cfg, steps) <==> NeverBlocked(cfg, steps) && NeverSpoiled(cfg, steps)
    decreases |steps|
  {
    if steps != [] {
      var before, step := steps[..|steps| - 1], steps[|steps| - 1];
      var t := Run(cfg, Init(), before).value;
      PagesKeptUntilUnmapped(cfg, before, t);
      if AlwaysKept(cfg, before) {
        LastKept(cfg, before, t);
        RunLockstep(cfg, before, t);
        NextIsCount(t);
        match step
        case MapStep(segs) => MapKeepsPages(cfg, t, segs);
        case FailStep(n, tagged) => FailKeepsPages(cfg, t, n, tagged);
        case _ => OthersKeepPages(cfg, t, step);
      }
    }
  }

  /** Disjoint ranges keep the pages only together with the failed mappings: they leave no
      range in use, but have written all the same. */
  lemma DisjointKeepsPages(cfg: Config, steps: seq<Step>, s: State)
    requires cfg.vtd && Run(cfg, Init(), steps) == Some(s) && Fed(cfg, steps)
    ensures AlwaysKept(cfg, steps) <==> AlwaysDisjoint(cfg, steps) && NeverSpoiled(cfg, steps)
  {
    PagesKeptUntilUnmapped(cfg, steps, s);
    RangesDisjointExactly(cfg, steps, s);
  }
}
