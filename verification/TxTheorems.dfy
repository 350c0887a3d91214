/** The transmit invariant over whole runs, and what it promises. */
module TxTheorems {
  import opened Options
  import opened TxModel
  import opened TxSafety
  import opened TxSteps
  import opened TxContent

  // ---------------------------------------------------------------- pointers, step by step

  lemma ClaimPointers(cfg: Config, s: State)
    requires Pointers(cfg.width, s.ring, s.dev, s.irq, s.log) && s.out.Mapped?
    ensures var s' := Claim(s); Pointers(cfg.width, s'.ring, s'.dev, s'.irq, s'.log)
  {
    PtrAdd(Bits32, |s.log.hist|, |s.out.segs|);
  }

  lemma DoorbellPointers(cfg: Config, s: State)
    requires Pointers(cfg.width, s.ring, s.dev, s.irq, s.log)
    ensures var s' := Doorbell(cfg, s); Pointers(cfg.width, s'.ring, s'.dev, s'.irq, s'.log)
  {
    PtrOfWord(cfg.width, |s.log.hist|);
  }

  lemma FetchPointers(cfg: Config, s: State)
    requires Pointers(cfg.width, s.ring, s.dev, s.irq, s.log)
    requires s.dev.idx < |s.ring.desc| && s.ring.desc[s.dev.idx].own
    ensures var s' := Fetch(cfg, s); Pointers(cfg.width, s'.ring, s'.dev, s'.irq, s'.log)
  {
    PtrAdd(cfg.width, s.log.closed, 1);
  }

  /** The handler computes exactly how many descriptors were closed since its last look. */
  lemma ReadCloseExact(cfg: Config, s: State, v: nat)
    requires Control(s) && Pointers(cfg.width, s.ring, s.dev, s.irq, s.log) && CanReadClose(cfg, s, v)
    ensures NumDone(cfg, v, s.ring.close) == s.log.closed - s.log.done
    ensures var s' := ReadClose(cfg, s, v); Pointers(cfg.width, s'.ring, s'.dev, s'.irq, s'.log)
  {
    NumDoneExact(cfg, v, s.ring.close, s.log.closed, s.log.done);
    PtrWrap(cfg.width, v);
  }

  lemma AdvancePointers(cfg: Config, s: State)
    requires Pointers(cfg.width, s.ring, s.dev, s.irq, s.log) && At(s, Released)
    ensures var s' := Advance(s); Pointers(cfg.width, s'.ring, s'.dev, s'.irq, s'.log)
  {
  }

  // ---------------------------------------------------------------- the invariant, step by step

  lemma DequeueInv(cfg: Config, s: State, opts: Opts)
    requires Inv(cfg, s) && CanDequeue(s)
    ensures Inv(cfg, Dequeue(s, opts))
  {
    DequeueControl(s, opts);
    DequeueContent(s, opts);
  }

  lemma DropInv(cfg: Config, s: State)
    requires Inv(cfg, s) && s.out.Holding?
    ensures Inv(cfg, Drop(s))
  {
    DropControl(s);
    DropContent(s);
  }

  lemma FailInv(cfg: Config, s: State, n: nat, tagged: bool)
    requires Inv(cfg, s) && CanAttempt(cfg, s)
    ensures Inv(cfg, Fail(s, n, tagged))
  {
    FailControl(s, n, tagged);
    FailContent(s, n, tagged);
  }

  lemma LoseInv(cfg: Config, s: State)
    requires Inv(cfg, s) && CanAttempt(cfg, s)
    ensures Inv(cfg, Lose(s))
  {
    LoseControl(s);
    FailContent(s, 0, false);
  }

  lemma MapInv(cfg: Config, s: State, segs: seq<Segment>)
    requires Inv(cfg, s) && CanMap(s, segs)
    ensures Inv(cfg, Map(cfg, s, segs))
  {
    MapControl(cfg, s, segs);
  }

  lemma ClaimInv(cfg: Config, s: State)
    requires Inv(cfg, s) && s.out.Mapped?
    ensures Inv(cfg, Claim(s))
  {
    ClaimControl(s);
    ClaimContent(s);
    ClaimPointers(cfg, s);
  }

  lemma StoreMbufInv(cfg: Config, s: State)
    requires Inv(cfg, s) && CanStore(s) && !s.out.stored
    ensures Inv(cfg, StoreMbuf(s))
  {
    StoreMbufControl(s);
  }

  lemma StoreDescInv(cfg: Config, s: State)
    requires Inv(cfg, s) && CanStore(s) && s.out.stored
    ensures Inv(cfg, StoreDesc(s))
  {
    StoreDescControl(s);
  }

  lemma GiveFirstInv(cfg: Config, s: State)
    requires Inv(cfg, s) && CanGiveFirst(s)
    ensures Inv(cfg, GiveFirst(s))
  {
    GiveFirstControl(s);
  }

  lemma DoorbellInv(cfg: Config, s: State)
    requires Inv(cfg, s) && s.out.Ready?
    ensures Inv(cfg, Doorbell(cfg, s))
  {
    DoorbellControl(cfg, s);
    DoorbellContent(cfg, s);
    DoorbellPointers(cfg, s);
  }

  lemma FetchInv(cfg: Config, s: State)
    requires Inv(cfg, s) && CanFetch(s)
    ensures Inv(cfg, Fetch(cfg, s))
  {
    PointersDiffer(cfg.width, s.log.closed, s.log.rung);
    FetchFinds(s);
    FetchControl(cfg, s);
    FetchContent(cfg, s);
    FetchPointers(cfg, s);
  }

  lemma ReadCloseInv(cfg: Config, s: State, v: nat)
    requires Inv(cfg, s) && CanReadClose(cfg, s, v)
    ensures Inv(cfg, ReadClose(cfg, s, v))
  {
    ReadCloseExact(cfg, s, v);
    ReadCloseControl(cfg, s, v);
  }

  lemma TakeInv(cfg: Config, s: State)
    requires Inv(cfg, s) && CanTake(s)
    ensures Inv(cfg, Take(s))
  {
    TakeControl(s);
  }

  lemma ClearSlotInv(cfg: Config, s: State)
    requires Inv(cfg, s) && CanClearSlot(s)
    ensures Inv(cfg, ClearSlot(s))
  {
    ClearSlotControl(s);
  }

  lemma UnmapInv(cfg: Config, s: State)
    requires Inv(cfg, s) && CanUnmap(cfg, s)
    ensures Inv(cfg, Unmap(s))
  {
    UnmapControl(cfg, s);
  }

  lemma FreeInv(cfg: Config, s: State)
    requires Inv(cfg, s) && CanFree(cfg, s)
    ensures Inv(cfg, Free(s))
  {
    FreeControl(cfg, s);
    FreeContent(s);
  }

  lemma ReleaseInv(cfg: Config, s: State)
    requires Inv(cfg, s) && CanRelease(s)
    ensures Inv(cfg, Release(s))
  {
    ReleaseControl(s);
    ReleaseContent(s);
  }

  lemma AdvanceInv(cfg: Config, s: State)
    requires Inv(cfg, s) && At(s, Released)
    ensures Inv(cfg, Advance(s))
  {
    AdvanceControl(s);
    AdvancePointers(cfg, s);
  }

  lemma FinishInv(cfg: Config, s: State)
    requires Inv(cfg, s) && CanFinish(s)
    ensures Inv(cfg, s.(irq := Idle))
  {
    FinishControl(s);
  }

  lemma ClearInv(cfg: Config, s: State)
    requires Inv(cfg, s) && CanClear(s)
    ensures Inv(cfg, Clear(s))
  {
    ClearControl(s);
    ClearContent(s);
  }

  // ---------------------------------------------------------------- the invariant over runs

  lemma StepInv(cfg: Config, s: State, step: Step)
    requires Inv(cfg, s) && Can(cfg, s, step)
    ensures Inv(cfg, Do(cfg, s, step))
  {
    match step
    case DequeueStep(opts) => DequeueInv(cfg, s, opts);
    case DropStep => DropInv(cfg, s);
    case MapStep(segs) => MapInv(cfg, s, segs);
    case FailStep(n, tagged) => FailInv(cfg, s, n, tagged);
    case LoseStep => LoseInv(cfg, s);
    case ClaimStep => ClaimInv(cfg, s);
    case StoreMbufStep => StoreMbufInv(cfg, s);
    case StoreDescStep => StoreDescInv(cfg, s);
    case GiveFirstStep => GiveFirstInv(cfg, s);
    case DoorbellStep => DoorbellInv(cfg, s);
    case FetchStep => FetchInv(cfg, s);
    case ReadCloseStep(v) => ReadCloseInv(cfg, s, v);
    case TakeStep => TakeInv(cfg, s);
    case ClearSlotStep => ClearSlotInv(cfg, s);
    case UnmapStep => UnmapInv(cfg, s);
    case FreeStep => FreeInv(cfg, s);
    case ReleaseStep => ReleaseInv(cfg, s);
    case AdvanceStep => AdvanceInv(cfg, s);
    case FinishStep => FinishInv(cfg, s);
    case ClearStep => ClearInv(cfg, s);
  }

  lemma InitInv(cfg: Config)
    ensures Inv(cfg, Init())
  {
    InitControl();
    assert Init().log.hist[..0] == [];
    assert Init().log.hist[0..] == [];
  }

  /** Every interleaving of the two threads and the device keeps the invariant. */
  lemma {:induction false} RunInv(cfg: Config, steps: seq<Step>, s: State)
    requires Run(cfg, Init(), steps) == Some(s)
    ensures Inv(cfg, s)
  {
    if steps == [] {
      InitInv(cfg);
    } else {
      var t := Run(cfg, Init(), steps[..|steps| - 1]).value;
      RunInv(cfg, steps[..|steps| - 1], t);
      StepInv(cfg, t, steps[|steps| - 1]);
    }
  }
}
