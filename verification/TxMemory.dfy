/**
 The memory-descriptor ring of txMapPacket and txUnmapPacket, and the shared array of
 address ranges, in step with the packet queue.

 As long as each mapping finds more than one memory descriptor free and is for a packet with
 bytes in it, descriptor and packet stay in lockstep.  The address ranges of packets in flight
 do not always stay apart; module TxRanges says exactly when they do.
 */
module TxMemory {
  import opened TxSizes
  import opened TxModel
  import opened TxSafety

  function SkipMem(i: int, n: int): int {
    if i + n < MEMS then i + n else i + n - MEMS
  }

  function DistMem(d: nat, i: nat): int {
    if d <= i then i - d else i - d + MEMS
  }

  /** Descriptors whose packet, if they end one, has been unmapped. */
  function UnmappedCount(irq: IrqPc, done: nat): nat {
    if irq.Busy? && (irq.at.Unmapped? || irq.at.Freed? || irq.at.Released?) then done + 1 else done
  }

  /** The descriptors in use are those grabbed last and not given back, in order.  Of the others
      only the next one to use can be tagged: a mapping that found no device address took it
      and gave it back with the tag set. */
  ghost predicate MemOk(mem: MemRing, maps: seq<Mem>, unmapped: nat) {
    && |mem.io| == MEMS && mem.free < MEMS
    && unmapped <= |maps| < unmapped + MEMS
    && mem.numFree == MEMS - (|maps| - unmapped)
    && mem.use == SkipMem(mem.free, |maps| - unmapped)
    && (forall i :: 0 <= i < MEMS ==>
          var k := unmapped + DistMem(mem.free, i);
          if k < |maps| then mem.io[i] == maps[k] else i == mem.use || mem.io[i] == Inactive)
  }

  function Pending(out: OutPc): nat {
    if out.Mapped? then 1 else 0
  }

  function End(out: OutPc, claimed: nat): nat {
    if out.Mapped? then claimed + |out.segs| else claimed
  }

  /** Where the packet after the k-th one starts. */
  function After(bases: seq<nat>, end: nat, k: nat): nat
    requires k < |bases|
  {
    if k + 1 < |bases| then bases[k + 1] else end
  }

  /** One grab per packet, laid end to end. */
  ghost predicate Chain(maps: seq<Mem>, bases: seq<nat>, end: nat) {
    && |maps| == |bases|
    && (forall k :: 0 <= k < |maps| ==> maps[k].Active? && 1 <= maps[k].count <= MAX_SEGS)
    && (forall k {:trigger After(bases, end, k)} :: 0 <= k < |maps| ==>
          bases[k] + maps[k].count == After(bases, end, k))
  }

  /** Each grab uses the ranges that start at its first descriptor index. */
  ghost predicate Starts(maps: seq<Mem>, bases: seq<nat>) {
    |maps| == |bases| && forall k :: 0 <= k < |maps| ==> maps[k].Active? && maps[k].start == bases[k] % RING
  }

  /** Each grab covers exactly the descriptors of its packet. */
  ghost predicate Located(n: nat, maps: seq<Mem>, bases: seq<nat>, hist: seq<Rec>) {
    && n <= |maps| == |bases|
    && (forall k :: 0 <= k < n ==> maps[k].Active? && bases[k] + maps[k].count <= |hist|)
    && (forall k, c :: 0 <= k < n && bases[k] <= c < bases[k] + maps[k].count ==>
          && hist[c].pkt == maps[k].pkt
          && (hist[c].last <==> c == bases[k] + maps[k].count - 1))
  }

  /** The handler, standing at descriptor `at`, works inside the oldest of the n claimed
      packets that are still mapped. */
  ghost predicate Working(at: nat, unmapped: nat, n: nat, maps: seq<Mem>, bases: seq<nat>, claimed: nat) {
    && unmapped <= n <= |maps| == |bases|
    && if unmapped < n then
         maps[unmapped].Active? && bases[unmapped] <= at < bases[unmapped] + maps[unmapped].count
       else at == claimed
  }

  /** Memory descriptors and packets are in lockstep. */
  ghost predicate Lockstep(s: State) {
    && MemOk(s.mem, s.log.maps, s.log.unmapped)
    && |s.log.maps| == |s.log.queue| + Pending(s.out)
    && (s.out.Mapped? ==>
          s.log.maps[|s.log.queue|] == Active(s.out.pkt, s.ring.next, |s.out.segs|))
    && Chain(s.log.maps, s.log.bases, End(s.out, |s.log.hist|))
    && Starts(s.log.maps, s.log.bases)
    && Located(|s.log.queue|, s.log.maps, s.log.bases, s.log.hist)
    && Working(UnmappedCount(s.irq, s.log.done), s.log.unmapped, |s.log.queue|,
               s.log.maps, s.log.bases, |s.log.hist|)
  }

  // ---------------------------------------------------------------- steps

  lemma GrabOk(mem: MemRing, maps: seq<Mem>, unmapped: nat, pkt: Packet, start: nat, count: nat)
    requires MemOk(mem, maps, unmapped) && mem.numFree > 1
    ensures MemOk(Grab(mem, pkt, start, count), maps + [Active(pkt, start, count)], unmapped)
  {
    var n := |maps| - unmapped;
    assert DistMem(mem.free, mem.use) == n;
  }

  lemma UngrabOk(mem: MemRing, maps: seq<Mem>, unmapped: nat)
    requires MemOk(mem, maps, unmapped) && unmapped < |maps|
    ensures mem.io[mem.free] == maps[unmapped]
    ensures MemOk(Ungrab(mem), maps, unmapped + 1)
  {
    assert DistMem(mem.free, mem.free) == 0;
    var free' := Ungrab(mem).free;
    assert free' == SkipMem(mem.free, 1);
    forall i | 0 <= i < MEMS && i != mem.free ensures DistMem(free', i) == DistMem(mem.free, i) - 1 {
    }
  }

  lemma ChainAppend(maps: seq<Mem>, bases: seq<nat>, end: nat, m: Mem)
    requires Chain(maps, bases, end) && m.Active? && 1 <= m.count <= MAX_SEGS
    ensures Chain(maps + [m], bases + [end], end + m.count)
  {
    var maps', bases' := maps + [m], bases + [end];
    forall k | 0 <= k < |maps'| ensures bases'[k] + maps'[k].count == After(bases', end + m.count, k) {
      if k < |maps| {
        assert bases[k] + maps[k].count == After(bases, end, k);
      }
    }
  }

  /** Mapping keeps the lockstep exactly when more than one memory descriptor is free. */
  lemma MapLockstep(cfg: Config, s: State, segs: seq<Segment>)
    requires Lockstep(s) && cfg.vtd && CanMap(s, segs)
    requires s.ring.next == |s.log.hist| % RING
    ensures Lockstep(Map(cfg, s, segs)) <==> s.mem.numFree > 1
  {
    if s.mem.numFree > 1 {
      GrabOk(s.mem, s.log.maps, s.log.unmapped, s.out.pkt, s.ring.next, |segs|);
      ChainAppend(s.log.maps, s.log.bases, |s.log.hist|, Active(s.out.pkt, s.ring.next, |segs|));
    }
  }

  lemma ClaimLocated(n: nat, maps: seq<Mem>, bases: seq<nat>, hist: seq<Rec>, q: Queued)
    requires Located(n, maps, bases, hist)
    requires |maps| == n + 1 && bases[n] == |hist|
    requires maps[n].Active? && maps[n].pkt == q.pkt && maps[n].count == |q.segs|
    ensures Located(n + 1, maps, bases, hist + Recs(q))
  {
    var hist' := hist + Recs(q);
    forall k, c | 0 <= k < n + 1 && bases[k] <= c < bases[k] + maps[k].count
      ensures hist'[c].pkt == maps[k].pkt
      ensures hist'[c].last <==> c == bases[k] + maps[k].count - 1
    {
      if k < n {
        assert hist'[c] == hist[c];
      } else {
        assert hist'[c] == Recs(q)[c - |hist|];
      }
    }
  }

  lemma ClaimLockstep(s: State)
    requires Lockstep(s) && s.out.Mapped?
    ensures Lockstep(Claim(s))
  {
    var n := |s.log.queue|;
    assert s.log.bases[n] + s.log.maps[n].count == After(s.log.bases, End(s.out, |s.log.hist|), n);
    ClaimLocated(n, s.log.maps, s.log.bases, s.log.hist, Queued(s.out.pkt, s.out.opts, s.out.segs));
  }

  /** A packet's last descriptor is reached while its grab is the oldest one. */
  lemma UnmapsOldest(s: State)
    requires Lockstep(s) && s.irq.Busy? && s.irq.at.Cleared?
    requires s.log.done < |s.log.hist| && s.log.hist[s.log.done].last
    ensures var k := s.log.unmapped;
            && k < |s.log.queue|
            && s.log.maps[k].Active? && s.log.maps[k].pkt == s.log.hist[s.log.done].pkt
            && s.log.done + 1 == After(s.log.bases, End(s.out, |s.log.hist|), k)
  {
    var k := s.log.unmapped;
    assert s.log.hist[s.log.done].pkt == s.log.maps[k].pkt;
  }

  /** The grab after the k-th one starts where the handler then stands. */
  lemma UnmapWorking(maps: seq<Mem>, bases: seq<nat>, end: nat, k: nat, n: nat, claimed: nat)
    requires Chain(maps, bases, end) && k < n <= |maps|
    requires n == |maps| ==> end == claimed
    requires n < |maps| ==> |maps| == n + 1 && end == claimed + maps[n].count
    ensures Working(After(bases, end, k), k + 1, n, maps, bases, claimed)
  {
    if k + 1 < |maps| {
      assert bases[k + 1] + maps[k + 1].count == After(bases, end, k + 1);
    }
  }

  /** txUnmapPacket gives back the memory descriptor of the very packet being freed. */
  lemma UnmapReleasesOwnPacket(s: State)
    requires Lockstep(s) && s.irq.Busy? && s.irq.at.Cleared?
    requires s.log.done < |s.log.hist| && s.log.hist[s.log.done].last
    ensures s.mem.io[s.mem.free].Active? && s.mem.io[s.mem.free].pkt == s.log.hist[s.log.done].pkt
    ensures Lockstep(Unmap(s))
  {
    UnmapsOldest(s);
    UngrabOk(s.mem, s.log.maps, s.log.unmapped);
    UnmapWorking(s.log.maps, s.log.bases, End(s.out, |s.log.hist|), s.log.unmapped, |s.log.queue|, |s.log.hist|);
  }

  lemma ReleaseLockstep(s: State)
    requires Lockstep(s) && s.irq.Busy?
    requires s.irq.at.Cleared? ==> s.log.done < |s.log.hist| && !s.log.hist[s.log.done].last
    requires s.irq.at.Cleared? || s.irq.at.Freed?
    ensures Lockstep(Release(s))
  {
    if s.irq.at.Cleared? {
      var k := s.log.unmapped;
      assert s.log.hist[s.log.done].last <==> s.log.done == s.log.bases[k] + s.log.maps[k].count - 1;
    }
  }

  // ---------------------------------------------------------------- lockstep over runs

  /** Every mapping of the run found more than one memory descriptor free, and none took one
      for a packet of empty buffers. */
  predicate Fed(cfg: Config, steps: seq<Step>) {
    steps == [] ||
    (Fed(cfg, steps[..|steps| - 1]) && !steps[|steps| - 1].LoseStep? &&
     (steps[|steps| - 1].MapStep? ==>
        var t := Run(cfg, Init(), steps[..|steps| - 1]);
        t.Some? && t.value.mem.numFree > 1))
  }

  /** The lockstep looks only at these parts of the state. */
  lemma SameLockstep(s: State, t: State)
    requires Lockstep(s) && t.mem == s.mem
    requires t.log.maps == s.log.maps && t.log.bases == s.log.bases && t.log.unmapped == s.log.unmapped
    requires t.log.queue == s.log.queue && t.log.hist == s.log.hist
    requires UnmappedCount(t.irq, t.log.done) == UnmappedCount(s.irq, s.log.done)
    requires (t.out == s.out && t.ring.next == s.ring.next) || (!s.out.Mapped? && !t.out.Mapped?)
    ensures Lockstep(t)
  {
  }

  /** Steps of the output thread around a mapping. */
  lemma OutputLockstep(cfg: Config, s: State, step: Step)
    requires Lockstep(s) && Can(cfg, s, step)
    requires || step.DequeueStep? || step.DropStep? || step.StoreMbufStep? || step.StoreDescStep?
             || step.GiveFirstStep? || step.DoorbellStep?
    ensures Lockstep(Do(cfg, s, step))
  {
    SameLockstep(s, Do(cfg, s, step));
  }

  /** Steps of the device, and of the handler other than giving something back. */
  lemma HandlerLockstep(cfg: Config, s: State, step: Step)
    requires cfg.vtd && Lockstep(s) && Can(cfg, s, step)
    requires || step.FetchStep? || step.ReadCloseStep? || step.TakeStep? || step.ClearSlotStep?
             || step.FreeStep? || step.AdvanceStep? || step.FinishStep?
    requires s.irq.Busy? && s.irq.n == 0 ==> s.irq.at == Scan
    ensures Lockstep(Do(cfg, s, step))
  {
    SameLockstep(s, Do(cfg, s, step));
  }

  /** A mapping that fails gives back what it took. */
  lemma FailLockstep(cfg: Config, s: State, n: nat, tagged: bool)
    requires Lockstep(s) && CanAttempt(cfg, s)
    ensures Lockstep(Fail(s, n, tagged))
  {
    assert DistMem(s.mem.free, s.mem.use) == |s.log.maps| - s.log.unmapped;
  }

  /** A packet of empty buffers costs a memory descriptor, however many are free. */
  lemma LoseBreaksLockstep(cfg: Config, s: State)
    requires Lockstep(s) && CanAttempt(cfg, s)
    ensures !Lockstep(Lose(s)) && Lose(s).mem.numFree == s.mem.numFree - 1
  {
  }

  lemma StepLockstep(cfg: Config, s: State, step: Step)
    requires cfg.vtd && Control(s) && s.ring.next == |s.log.hist| % RING
    requires Lockstep(s) && Can(cfg, s, step)
    ensures Lockstep(Do(cfg, s, step)) <==> !step.LoseStep? && (step.MapStep? ==> s.mem.numFree > 1)
  {
    match step
    case MapStep(segs) => MapLockstep(cfg, s, segs);
    case FailStep(n, tagged) => FailLockstep(cfg, s, n, tagged);
    case LoseStep => LoseBreaksLockstep(cfg, s);
    case ClaimStep => ClaimLockstep(s);
    case UnmapStep => UnmapReleasesOwnPacket(s);
    case ReleaseStep => ReleaseLockstep(s);
    case ClearStep => ClearLockstep(s);
    case DequeueStep(_) => OutputLockstep(cfg, s, step);
    case DropStep => OutputLockstep(cfg, s, step);
    case StoreMbufStep => OutputLockstep(cfg, s, step);
    case StoreDescStep => OutputLockstep(cfg, s, step);
    case GiveFirstStep => OutputLockstep(cfg, s, step);
    case DoorbellStep => OutputLockstep(cfg, s, step);
    case _ => HandlerLockstep(cfg, s, step);
  }

  lemma ClearLockstep(s: State)
    ensures Lockstep(Clear(s))
  {
  }

  // ---------------------------------------------------------------- address ranges

  predicate Disjoint(a: Mem, b: Mem)
    requires a.Active? && b.Active?
  {
    a.start + a.count <= b.start || b.start + b.count <= a.start
  }

  /** The ranges of all packets whose memory descriptor is active are pairwise disjoint. */
  ghost predicate RangesDisjoint(log: History) {
    forall a, b :: log.unmapped <= a < b < |log.maps| && log.maps[a].Active? && log.maps[b].Active? ==>
      Disjoint(log.maps[a], log.maps[b])
  }

  lemma {:induction false} BasesApart(maps: seq<Mem>, bases: seq<nat>, end: nat, a: nat, b: nat)
    requires Chain(maps, bases, end) && a < b < |maps|
    ensures bases[a] + maps[a].count <= bases[b]
    decreases b
  {
    var c := b - 1;
    assert bases[c] + maps[c].count == After(bases, end, c);
    if a < c {
      BasesApart(maps, bases, end, a, c);
    }
  }

  lemma BaseBelowEnd(maps: seq<Mem>, bases: seq<nat>, end: nat, a: nat)
    requires Chain(maps, bases, end) && a < |maps|
    ensures bases[a] + maps[a].count <= end
  {
    var z := |maps| - 1;
    assert bases[z] + maps[z].count == After(bases, end, z);
    if a < z {
      BasesApart(maps, bases, end, a, z);
    }
  }

  /** Packets within one turn of the ring use disjoint ranges, although only descriptor
      indices wrap and range indices do not. */
  lemma OneTurnDisjoint(ba: nat, na: nat, bb: nat, nb: nat)
    requires 1 <= na && 1 <= nb && ba + na <= bb && bb + nb <= ba + RING
    ensures ba % RING + na <= bb % RING || bb % RING + nb <= ba % RING
  {
  }

  /** Within a turn less four, a new packet meets an older one only by starting below it. */
  lemma NextTurnMeets(ba: nat, na: nat, bb: nat, nb: nat)
    requires 1 <= na && 1 <= nb && ba + na <= bb <= ba + RING - 5
    ensures (ba % RING + na <= bb % RING || bb % RING + nb <= ba % RING)
       <==> !(bb % RING < ba % RING < bb % RING + nb)
  {
  }
}
