/**
 Runs that the descriptor ring does not rule out: one uses up the memory descriptors, one makes
 the address ranges of two packets in flight overlap, one overwrites a packet's pages by a
 mapping that fails.
 */
module TxReach {
  import opened Options
  import opened TxSizes
  import opened TxModel
  import opened TxCalls
  import opened TxSafety
  import opened TxTheorems
  import opened TxMemory
  import opened TxRanges
  import TxSteps

  /** A state that some run reaches, one in lockstep if `fed`. */
  ghost predicate Reaches(cfg: Config, fed: bool, s: State) {
    exists steps :: Run(cfg, Init(), steps) == Some(s) && (fed ==> Fed(cfg, steps))
  }

  /** A state that some run in lockstep reaches. */
  ghost predicate FedReachable(cfg: Config, s: State) {
    Reaches(cfg, true, s)
  }

  lemma Start(cfg: Config, fed: bool)
    ensures Reaches(cfg, fed, Init())
  {
    assert Run(cfg, Init(), []) == Some(Init()) && Fed(cfg, []);
  }

  lemma Extend(cfg: Config, fed: bool, s: State, step: Step)
    requires Reaches(cfg, fed, s) && Can(cfg, s, step)
    requires fed ==> !step.LoseStep? && (step.MapStep? ==> s.mem.numFree > 1)
    ensures Reaches(cfg, fed, Do(cfg, s, step))
  {
    var steps :| Run(cfg, Init(), steps) == Some(s) && (fed ==> Fed(cfg, steps));
    var more := steps + [step];
    assert more[..|more| - 1] == steps;
    assert Run(cfg, Init(), more) == Some(Do(cfg, s, step)) && (fed ==> Fed(cfg, more));
  }

  /** Fewer runs are in lockstep than there are. */
  lemma Unfed(cfg: Config, s: State)
    requires FedReachable(cfg, s)
    ensures Reaches(cfg, false, s) && Reachable(cfg, s)
  {
    var steps :| Run(cfg, Init(), steps) == Some(s) && Fed(cfg, steps);
  }

  lemma Facts(cfg: Config, fed: bool, s: State)
    requires cfg.vtd && Reaches(cfg, fed, s)
    ensures Inv(cfg, s) && Sized(s) && (fed ==> Lockstep(s))
  {
    var steps :| Run(cfg, Init(), steps) == Some(s) && (fed ==> Fed(cfg, steps));
    RunInv(cfg, steps, s);
    if fed {
      RunLockstep(cfg, steps, s);
    }
  }

  // ---------------------------------------------------------------- the output thread

  /** Write out the packet being filled, from segment i on. */
  lemma {:induction false} FillUp(cfg: Config, fed: bool, s: State) returns (t: State)
    requires cfg.vtd && Reaches(cfg, fed, s) && s.out.Filling? && !s.out.stored
    ensures Reaches(cfg, fed, t) && t.out.Ready?
    ensures t.irq == s.irq && t.log == s.log && t.mem == s.mem
    decreases if s.out.Filling? then |s.out.q.segs| - s.out.i else 0
  {
    Facts(cfg, fed, s);
    Extend(cfg, fed, s, StoreMbufStep);
    var u := StoreMbuf(s);
    Extend(cfg, fed, u, StoreDescStep);
    var v := StoreDesc(u);
    if v.out.Filling? {
      t := FillUp(cfg, fed, v);
    } else {
      Facts(cfg, fed, v);
      Extend(cfg, fed, v, GiveFirstStep);
      t := GiveFirst(v);
    }
  }

  /** A packet of n segments. */
  function Plain(pkt: nat, n: nat): Queued {
    Queued(pkt, Opts(0, 0), seq(n, i => Segment(0, 1)))
  }

  /** Send one packet of n segments. */
  lemma Send(cfg: Config, fed: bool, s: State, n: nat) returns (t: State)
    requires cfg.vtd && Reaches(cfg, fed, s) && CanDequeue(s) && 1 <= n <= MAX_SEGS
    requires fed ==> s.mem.numFree > 1
    ensures Reaches(cfg, fed, t) && t.out.Ready? && t.irq == s.irq
    ensures s.mem.use < |s.mem.io| && t.mem == Grab(s.mem, s.log.dequeued, s.ring.next, n)
    ensures t.log.hist == s.log.hist + Recs(Plain(s.log.dequeued, n)) && t.log.dequeued == s.log.dequeued + 1
    ensures |t.log.queue| == |s.log.queue| + 1
    ensures s.mem.numFree > 1 ==> t.log.bases == s.log.bases + [|s.log.hist|]
    ensures t.log.unmapped == s.log.unmapped && t.log.done == s.log.done && t.log.closed == s.log.closed
  {
    Facts(cfg, fed, s);
    var segs := Plain(0, n).segs;
    Extend(cfg, fed, s, DequeueStep(Opts(0, 0)));
    var u := Dequeue(s, Opts(0, 0));
    Facts(cfg, fed, u);
    Extend(cfg, fed, u, MapStep(segs));
    var v := Map(cfg, u, segs);
    Extend(cfg, fed, v, ClaimStep);
    t := FillUp(cfg, fed, Claim(v));
  }

  // ---------------------------------------------------------------- using up memory descriptors

  /** Every packet so far had one segment. */
  ghost predicate Singles(log: History) {
    && |log.hist| == log.dequeued
    && forall c :: 0 <= c < |log.hist| ==> log.hist[c].last && log.hist[c].pkt == c
  }

  lemma SendSingle(cfg: Config, fed: bool, s: State) returns (t: State)
    requires cfg.vtd && Reaches(cfg, fed, s) && s.out.Ready? && s.irq.Idle? && Singles(s.log)
    requires |s.log.hist| - s.log.done <= RING - 36 && (fed ==> s.mem.numFree > 1)
    ensures Reaches(cfg, fed, t) && t.out.Ready? && t.irq.Idle? && Singles(t.log)
    ensures s.mem.use < |s.mem.io| && t.mem == Grab(s.mem, s.log.dequeued, s.ring.next, 1)
    ensures |t.log.hist| == |s.log.hist| + 1 && t.log.done == s.log.done && t.log.closed == s.log.closed
  {
    Facts(cfg, fed, s);
    t := Send(cfg, fed, s, 1);
  }

  lemma {:induction false} SendSingles(cfg: Config, k: nat) returns (t: State)
    requires cfg.vtd && k < MEMS
    ensures FedReachable(cfg, t) && t.out.Ready? && t.irq.Idle? && Singles(t.log)
    ensures |t.log.hist| == k && t.log.done == t.log.closed == 0
    ensures |t.mem.io| == MEMS && t.mem.use == k && t.mem.free == 0 && t.mem.numFree == MEMS - k
  {
    if k == 0 {
      Start(cfg, true);
      t := Init();
    } else {
      var s := SendSingles(cfg, k - 1);
      t := SendSingle(cfg, true, s);
    }
  }

  /** 511 single-segment packets leave more than half of the ring free but only one memory
      descriptor: the next packet is queued without one, and the lockstep is lost. */
  lemma MemoryDescriptorsRunOut(cfg: Config) returns (s: State, segs: seq<Segment>)
    requires cfg.vtd
    ensures FedReachable(cfg, s) && CanMap(s, segs) && s.ring.free > RING / 2
    ensures s.mem.numFree == 1
    ensures Map(cfg, s, segs).mem == s.mem && !Lockstep(Map(cfg, s, segs))
  {
    var t := SendSingles(cfg, MEMS - 1);
    Facts(cfg, true, t);
    Extend(cfg, true, t, DequeueStep(Opts(0, 0)));
    s := Dequeue(t, Opts(0, 0));
    Facts(cfg, true, s);
    segs := [Segment(0, 1)];
    NextIsCount(s);
    MapLockstep(cfg, s, segs);
  }

  // ---------------------------------------------------------------- packets of empty buffers

  /** k packets of empty buffers are taken and dropped, nothing is queued, and k memory
      descriptors are gone. */
  lemma {:induction false} LoseMany(cfg: Config, k: nat) returns (s: State)
    requires cfg.vtd && k < MEMS
    ensures Reaches(cfg, false, s) && s.out.Ready? && s.irq.Idle?
    ensures s.ring.free == RING && s.log.hist == [] && s.mem.numFree == MEMS - k
  {
    if k == 0 {
      Start(cfg, false);
      s := Init();
    } else {
      var t := LoseMany(cfg, k - 1);
      Facts(cfg, false, t);
      Extend(cfg, false, t, DequeueStep(Opts(0, 0)));
      var u := Dequeue(t, Opts(0, 0));
      Extend(cfg, false, u, LoseStep);
      s := Lose(u);
    }
  }

  /** The first of them already breaks the lockstep, with all memory descriptors free; 511 of
      them leave one, with an empty ring and nothing in flight. */
  lemma EmptyPacketsUseUp(cfg: Config) returns (s: State, t: State)
    requires cfg.vtd
    ensures FedReachable(cfg, s) && Can(cfg, s, LoseStep) && s.mem.numFree == MEMS
    ensures Reachable(cfg, Lose(s)) && !Lockstep(Lose(s))
    ensures Reachable(cfg, t) && t.ring.free == RING && t.log.hist == [] && t.mem.numFree == 1
  {
    Start(cfg, true);
    Extend(cfg, true, Init(), DequeueStep(Opts(0, 0)));
    s := Dequeue(Init(), Opts(0, 0));
    Facts(cfg, true, s);
    LoseBreaksLockstep(cfg, s);
    Unfed(cfg, s);
    Extend(cfg, false, s, LoseStep);
    t := LoseMany(cfg, MEMS - 1);
  }

  // ---------------------------------------------------------------- the device

  /** Ring the doorbell and let the device close k descriptors. */
  lemma {:induction false} Serve(cfg: Config, fed: bool, s: State, k: nat) returns (t: State)
    requires cfg.vtd && Reaches(cfg, fed, s) && s.out.Ready? && k <= |s.log.hist| - s.log.closed
    ensures Reaches(cfg, fed, t) && t.out == s.out && t.irq == s.irq && t.mem == s.mem
    ensures t.log == s.log.(rung := |s.log.hist|, announced := |s.log.queue|, closed := s.log.closed + k)
  {
    if k == 0 {
      Extend(cfg, fed, s, DoorbellStep);
      t := Doorbell(cfg, s);
    } else {
      var u := Serve(cfg, fed, s, k - 1);
      Facts(cfg, fed, u);
      PointersDiffer(cfg.width, u.log.closed, u.log.rung);
      Extend(cfg, fed, u, FetchStep);
      TxSteps.FetchFinds(u);
      t := Fetch(cfg, u);
    }
  }

  // ---------------------------------------------------------------- the completion handler

  /** The handler maps nothing, so its steps keep a run in lockstep. */
  lemma {:induction false} FedAppend(cfg: Config, steps: seq<Step>, trace: seq<Step>)
    requires Fed(cfg, steps) && forall i :: 0 <= i < |trace| ==> HandlerStep(trace[i])
    ensures Fed(cfg, steps + trace)
    decreases |trace|
  {
    if trace == [] {
      assert steps + trace == steps;
    } else {
      var n := |trace| - 1;
      FedAppend(cfg, steps, trace[..n]);
      assert (steps + trace)[..|steps| + n] == steps + trace[..n];
      assert HandlerStep(trace[n]) && (steps + trace)[|steps| + n] == trace[n];
    }
  }

  lemma ExtendHandler(cfg: Config, fed: bool, s: State, t: State)
    requires Reaches(cfg, fed, s) && HandlerRun(cfg, s, t)
    ensures Reaches(cfg, fed, t)
  {
    var steps :| Run(cfg, Init(), steps) == Some(s) && (fed ==> Fed(cfg, steps));
    var trace :| Run(cfg, s, trace) == Some(t) && forall i :: 0 <= i < |trace| ==> HandlerStep(trace[i]);
    RunAppend(cfg, Init(), steps, s, trace);
    if fed {
      FedAppend(cfg, steps, trace);
    }
    assert Run(cfg, Init(), steps + trace) == Some(t) && (fed ==> Fed(cfg, steps + trace));
  }

  /** Release one descriptor. */
  lemma ReleaseNext(cfg: Config, fed: bool, s: State) returns (t: State)
    requires cfg.vtd && Reaches(cfg, fed, s) && At(s, Scan)
    ensures Reaches(cfg, fed, t) && Sized(s) && t == ReleaseOne(cfg, s)
  {
    Facts(cfg, fed, s);
    ReleaseOneIsRun(cfg, s);
    t := ReleaseOne(cfg, s);
    ExtendHandler(cfg, fed, s, t);
  }

  lemma {:induction false} ReleaseMany(cfg: Config, fed: bool, s: State, k: nat) returns (t: State)
    requires cfg.vtd && Reaches(cfg, fed, s) && s.irq.Busy? && s.irq.at.Scan? && k <= s.irq.n
    requires s.irq.m == None
    ensures Reaches(cfg, fed, t)
    ensures t.irq == Busy(s.irq.n - k, None, Scan) && t.out == s.out
    ensures t.log.done == s.log.done + k && t.log.closed == s.log.closed && t.log.rung == s.log.rung
    ensures t.log.hist == s.log.hist && t.log.queue == s.log.queue && t.log.bases == s.log.bases
    ensures t.log.dequeued == s.log.dequeued
  {
    if k == 0 {
      t := s;
    } else {
      var u := ReleaseMany(cfg, fed, s, k - 1);
      t := ReleaseNext(cfg, fed, u);
    }
  }

  /** Read the close pointer: the handler sees everything the device has closed. */
  lemma Look(cfg: Config, fed: bool, s: State) returns (t: State)
    requires cfg.vtd && Reaches(cfg, fed, s) && s.irq.Idle?
    ensures Reaches(cfg, fed, t) && s.log.done <= s.log.closed
    ensures t.irq == Busy(s.log.closed - s.log.done, None, Scan)
    ensures t.out == s.out && t.mem == s.mem && t.log == s.log
  {
    Facts(cfg, fed, s);
    PtrWrap(cfg.width, s.dev.close);
    ReadCloseExact(cfg, s, s.dev.close);
    Extend(cfg, fed, s, ReadCloseStep(s.dev.close));
    t := ReadClose(cfg, s, s.dev.close);
  }

  /** Read the close pointer and release all but `left` of what the device has closed. */
  lemma Complete(cfg: Config, s: State, left: nat) returns (t: State)
    requires cfg.vtd && FedReachable(cfg, s) && s.irq.Idle? && left <= s.log.closed - s.log.done
    ensures FedReachable(cfg, t) && t.irq == Busy(left, None, Scan) && t.out == s.out
    ensures t.log.done + left == s.log.closed == t.log.closed
    ensures t.log.hist == s.log.hist && t.log.queue == s.log.queue && t.log.bases == s.log.bases
  {
    var u := Look(cfg, true, s);
    t := ReleaseMany(cfg, true, u, u.irq.n - left);
  }

  // ---------------------------------------------------------------- overlapping ranges

  /** Send k packets of 32 segments, if the ring has room for them. */
  lemma {:induction false} SendBig(cfg: Config, s: State, k: nat) returns (t: State)
    requires cfg.vtd && FedReachable(cfg, s) && s.out.Ready? && s.irq.Idle?
    requires |s.log.queue| == 1 && |s.log.bases| == 1 && |s.log.hist| == s.log.done == 8
    requires k <= 31
    ensures FedReachable(cfg, t) && t.out.Ready? && t.irq.Idle?
    ensures |t.log.hist| == 8 + 32 * k && |t.log.bases| == 1 + k && s.log.bases <= t.log.bases
    ensures k > 0 ==> t.log.bases[1] == 8
    ensures k > 1 ==> t.log.bases[2] == 40
    ensures t.log.done == s.log.done && t.log.closed == s.log.closed
  {
    if k == 0 {
      t := s;
    } else {
      var u := SendBig(cfg, s, k - 1);
      RoomFor(cfg, u);
      t := Send(cfg, true, u, 32);
    }
  }

  lemma RoomFor(cfg: Config, s: State)
    requires cfg.vtd && FedReachable(cfg, s) && s.out.Ready? && (s.irq.Idle? || s.irq.at.Scan?)
    requires |s.log.hist| - s.log.done <= RING - 36 && |s.log.bases| <= 40
    ensures CanDequeue(s) && s.mem.numFree > 1
  {
    Facts(cfg, true, s);
  }

  /** 33 packets have claimed 1024 descriptors.  The handler has been interrupted before the
      last of the 32 descriptors, from index 8 on, of the second packet. */
  lemma AlmostReleased(cfg: Config) returns (t: State)
    requires cfg.vtd
    ensures FedReachable(cfg, t) && t.out.Ready? && t.irq == Busy(1, None, Scan)
    ensures |t.log.hist| == 1024 && t.log.done == 39
    ensures |t.log.bases| == 33 && t.log.bases[0] == 0 && t.log.bases[1] == 8 && t.log.bases[2] == 40
  {
    Start(cfg, true);
    RoomFor(cfg, Init());
    var a := Send(cfg, true, Init(), 8);
    var b := Serve(cfg, true, a, 8);
    var c := Complete(cfg, b, 0);
    Extend(cfg, true, c, FinishStep);
    var d := SendBig(cfg, c.(irq := Idle), 31);
    var e := Serve(cfg, true, d, 32);
    var f := Complete(cfg, e, 1);
    RoomFor(cfg, f);
    t := Send(cfg, true, f, 24);
  }

  lemma SecondIsOldest(unmapped: nat, maps: seq<Mem>, bases: seq<nat>, claimed: nat)
    requires Chain(maps, bases, claimed) && Starts(maps, bases)
    requires Working(39, unmapped, 33, maps, bases, claimed)
    requires |bases| == 33 && bases[0] == 0 && bases[1] == 8 && bases[2] == 40 && claimed > 39
    ensures unmapped == 1 && maps[1].start == 8 && maps[1].count == 32
  {
    assert bases[0] + maps[0].count == After(bases, claimed, 0);
    assert bases[1] + maps[1].count == After(bases, claimed, 1);
    if unmapped > 2 {
      BasesApart(maps, bases, claimed, 2, unmapped);
    }
  }

  /** In that state the ranges in use are disjoint, and a packet of 32 segments is blocked. */
  lemma BlockedState(cfg: Config) returns (s: State)
    requires cfg.vtd
    ensures FedReachable(cfg, s) && s.out.Holding? && s.mem.numFree > 1 && Lockstep(s)
    ensures s.ring.next == 0 && s.log.unmapped == 1 && |s.log.maps| == 33
    ensures s.log.maps[1].Active? && s.log.maps[1].start == 8 && s.log.maps[1].count == 32
    ensures RangesDisjoint(s.log)
  {
    var t := AlmostReleased(cfg);
    RoomFor(cfg, t);
    Extend(cfg, true, t, DequeueStep(Opts(0, 0)));
    s := Dequeue(t, Opts(0, 0));
    Facts(cfg, true, s);
    NextIsCount(s);
    SecondIsOldest(s.log.unmapped, s.log.maps, s.log.bases, |s.log.hist|);
    forall a, b | 1 <= a < b < 33 ensures Disjoint(s.log.maps[a], s.log.maps[b]) {
      WithinTurn(s.log.maps, s.log.bases, |s.log.hist|, a, b);
    }
  }

  lemma WithinTurn(maps: seq<Mem>, bases: seq<nat>, claimed: nat, a: nat, b: nat)
    requires Chain(maps, bases, claimed) && Starts(maps, bases) && a < b < |maps| && claimed <= RING
    ensures Disjoint(maps[a], maps[b])
  {
    BasesApart(maps, bases, claimed, a, b);
    BaseBelowEnd(maps, bases, claimed, b);
    OneTurnDisjoint(bases[a], maps[a].count, bases[b], maps[b].count);
  }

  /** Two packets in flight can share address ranges, in a run where the device closes
      whole packets and every mapping finds memory descriptors to spare. */
  lemma RangesCanOverlap(cfg: Config) returns (s: State, segs: seq<Segment>)
    requires cfg.vtd
    ensures FedReachable(cfg, s) && CanMap(s, segs) && s.mem.numFree > 1
    ensures FedReachable(cfg, Map(cfg, s, segs)) && !RangesDisjoint(Map(cfg, s, segs).log)
  {
    s := BlockedState(cfg);
    segs := Plain(0, 32).segs;
    Facts(cfg, true, s);
    Extend(cfg, true, s, MapStep(segs));
    var log := Map(cfg, s, segs).log;
    assert log.maps[1].start == 8 && log.maps[33] == Active(s.out.pkt, 0, 32);
    assert !Disjoint(log.maps[1], log.maps[33]);
  }

  /** A mapping that fails can overwrite the pages of a packet in flight, although no two
      ranges in use overlap, before or after it. */
  lemma FailureOverwrites(cfg: Config, tagged: bool) returns (s: State)
    requires cfg.vtd
    ensures FedReachable(cfg, s) && Can(cfg, s, FailStep(32, tagged)) && RangesDisjoint(s.log)
    ensures var t := Fail(s, 32, tagged);
            FedReachable(cfg, t) && t.log.maps == s.log.maps && RangesDisjoint(t.log) && !PagesKept(t.log)
  {
    s := BlockedState(cfg);
    Facts(cfg, true, s);
    Extend(cfg, true, s, FailStep(32, tagged));
    var log := Fail(s, 32, tagged).log;
    HoldsNext(s.log.writes, Write(0, 32, None), 8, 1);
    assert Uses(log.maps[1], 8) && !Holds(log.writes, 8, 1);
  }
}
