/** Every step keeps the ownership part of the transmit invariant; one lemma per step. */
module TxSteps {
  import opened TxSizes
  import opened TxModel
  import opened TxSafety

  lemma InitControl()
    ensures Control(Init())
  {
  }

  lemma DequeueControl(s: State, opts: Opts)
    requires Control(s) && CanDequeue(s)
    ensures Control(Dequeue(s, opts))
  {
  }

  lemma DropControl(s: State)
    requires Control(s) && s.out.Holding?
    ensures Control(Drop(s))
  {
  }

  lemma FailControl(s: State, n: nat, tagged: bool)
    requires Control(s) && s.out.Holding?
    ensures Control(Fail(s, n, tagged))
  {
    DropControl(s);
  }

  lemma LoseControl(s: State)
    requires Control(s) && s.out.Holding?
    ensures Control(Lose(s))
  {
    DropControl(s);
  }

  lemma MapControl(cfg: Config, s: State, segs: seq<Segment>)
    requires Control(s) && CanMap(s, segs)
    ensures Control(Map(cfg, s, segs))
  {
  }

  lemma ClaimControl(s: State)
    requires Control(s) && s.out.Mapped?
    ensures Control(Claim(s))
  {
  }

  lemma StoreMbufWrites(s: State)
    requires Control(s) && CanStore(s) && !s.out.stored
    ensures Slots(StoreMbuf(s).ring.mbuf, s.ring.dirty, s.log.done, s.log.hist,
                  ClearedCount(s.irq, s.log.done), SlotCount(s.out, |s.log.hist|) + 1)
  {
    var k := SlotCount(s.out, |s.log.hist|);
    assert s.log.hist[k] == RecAt(s.out.q, s.out.i);
    SlotsPut(s.ring.mbuf, s.ring.dirty, s.log.done, s.log.hist, ClearedCount(s.irq, s.log.done), k);
  }

  lemma StoreMbufControl(s: State)
    requires Control(s) && CanStore(s) && !s.out.stored
    ensures Control(StoreMbuf(s))
  {
    StoreMbufWrites(s);
  }

  lemma StoreDescWrites(s: State)
    requires Control(s) && CanStore(s) && s.out.stored
    ensures Descs(StoreDesc(s).ring.desc, s.ring.dirty, s.log.done, s.log.hist, s.log.closed,
                  DescCount(s.out, |s.log.hist|) + 1, SettledCount(s.out, |s.log.hist|))
  {
    var k := DescCount(s.out, |s.log.hist|);
    assert s.log.hist[k] == RecAt(s.out.q, s.out.i);
    DescsPut(s.ring.desc, s.ring.dirty, s.log.done, s.log.hist, s.log.closed, k,
             SettledCount(s.out, |s.log.hist|));
  }

  lemma StoreDescOut(s: State)
    requires Control(s) && CanStore(s) && s.out.stored
    ensures var t := StoreDesc(s);
            && OutOk(t.out, s.ring.dirty, s.log.done, s.log.hist)
            && SettledCount(t.out, |s.log.hist|) == SettledCount(s.out, |s.log.hist|)
            && SlotCount(t.out, |s.log.hist|) == SlotCount(s.out, |s.log.hist|)
            && DescCount(t.out, |s.log.hist|) == DescCount(s.out, |s.log.hist|) + 1
  {
  }

  lemma StoreDescControl(s: State)
    requires Control(s) && CanStore(s) && s.out.stored
    ensures Control(StoreDesc(s))
  {
    StoreDescWrites(s);
    StoreDescOut(s);
  }

  lemma GiveFirstOwns(s: State)
    requires Control(s) && CanGiveFirst(s)
    ensures Descs(GiveFirst(s).ring.desc, s.ring.dirty, s.log.done, s.log.hist, s.log.closed,
                  |s.log.hist|, |s.log.hist|)
  {
    var k := SettledCount(s.out, |s.log.hist|);
    assert s.log.hist[k] == RecAt(s.out.q, 0);
    DescsOwn(s.ring.desc, s.ring.dirty, s.log.done, s.log.hist, s.log.closed, k);
  }

  lemma GiveFirstControl(s: State)
    requires Control(s) && CanGiveFirst(s)
    ensures Control(GiveFirst(s))
  {
    GiveFirstOwns(s);
  }

  lemma DoorbellControl(cfg: Config, s: State)
    requires Control(s) && s.out.Ready?
    ensures Control(Doorbell(cfg, s))
  {
  }

  /** The device finds an owned descriptor: the one recorded for this position. */
  lemma FetchFinds(s: State)
    requires Control(s) && s.log.closed < s.log.rung
    ensures s.dev.idx < RING
    ensures s.ring.desc[s.dev.idx] == Encode(s.log.hist[s.log.closed], s.dev.idx, true)
  {
  }

  lemma FetchIndices(cfg: Config, s: State)
    requires Control(s) && s.log.closed < s.log.rung
    ensures Indices(s.ring, Fetch(cfg, s).dev, Fetch(cfg, s).log)
  {
    FetchFinds(s);
  }

  lemma FetchControl(cfg: Config, s: State)
    requires Control(s) && s.log.closed < s.log.rung
    ensures Control(Fetch(cfg, s))
  {
    FetchIndices(cfg, s);
  }

  lemma ReadCloseControl(cfg: Config, s: State, v: nat)
    requires Control(s) && s.irq.Idle?
    requires NumDone(cfg, v, s.ring.close) == s.log.closed - s.log.done
    ensures Control(ReadClose(cfg, s, v))
  {
  }

  lemma TakeControl(s: State)
    requires Control(s) && CanTake(s)
    ensures Control(Take(s))
  {
  }

  lemma ClearSlotControl(s: State)
    requires Control(s) && CanClearSlot(s)
    ensures Control(ClearSlot(s))
  {
  }

  lemma UnmapControl(cfg: Config, s: State)
    requires Control(s) && CanUnmap(cfg, s)
    ensures Control(Unmap(s))
  {
  }

  lemma FreeControl(cfg: Config, s: State)
    requires Control(s) && CanFree(cfg, s)
    ensures Control(Free(s))
  {
  }

  lemma ReleaseControl(s: State)
    requires Control(s) && CanRelease(s)
    ensures Control(Release(s))
  {
  }

  lemma AdvanceIndices(s: State)
    requires Control(s) && At(s, Released)
    ensures var t := Advance(s);
            Counts(t.out, t.irq, t.ring.free, t.log) && Indices(t.ring, t.dev, t.log)
  {
  }

  lemma AdvanceArrays(s: State)
    requires Control(s) && At(s, Released)
    ensures var t := Advance(s);
            && Descs(t.ring.desc, t.ring.dirty, t.log.done, t.log.hist, t.log.closed,
                     DescCount(t.out, |t.log.hist|), SettledCount(t.out, |t.log.hist|))
            && Slots(t.ring.mbuf, t.ring.dirty, t.log.done, t.log.hist, t.log.done, SlotCount(t.out, |t.log.hist|))
  {
    DescsAdvance(s.ring.desc, s.ring.dirty, s.log.done, s.log.hist, s.log.closed,
                 DescCount(s.out, |s.log.hist|), SettledCount(s.out, |s.log.hist|));
    SlotsAdvance(s.ring.mbuf, s.ring.dirty, s.log.done, s.log.hist, SlotCount(s.out, |s.log.hist|));
  }

  lemma AdvanceControl(s: State)
    requires Control(s) && At(s, Released)
    ensures Control(Advance(s))
  {
    AdvanceIndices(s);
    AdvanceArrays(s);
    OutAdvance(s.out, s.ring.dirty, s.log.done, s.log.hist);
  }

  lemma FinishControl(s: State)
    requires Control(s) && CanFinish(s)
    ensures Control(s.(irq := Idle))
  {
  }
}
