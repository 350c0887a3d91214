/**
 Whole calls of outputStart and txInterrupt as functions on the protocol state: the
 steps of one thread in program order, with no other thread in between.  Each is shown
 to be a run of that thread's steps.
 */
module TxCalls {
  import opened Options
  import opened TxSizes
  import opened TxModel

  /** How mapping a packet goes, as far as it is tried; `tagged` says that a device address was
      missing. */
  datatype Mapping = Works | Fails(tagged: bool) | TooLong

  /** A packet as the stack hands it over: offload words and DMA segments, none of them for a
      packet of empty buffers or one with too many segments. */
  datatype Request = Request(opts: Opts, segs: seq<Segment>, mapping: Mapping)

  predicate Fit(req: Request) {
    && |req.segs| <= MAX_SEGS && (req.mapping == Fails(true) ==> req.segs != [])
    && (req.mapping.TooLong? ==> req.segs == [])
  }

  /** What every call relies on: arrays of the right size, indices inside them. */
  predicate Sized(s: State) {
    && |s.ring.desc| == RING && |s.ring.mbuf| == RING && |s.mem.io| == MEMS
    && s.ring.next < RING && s.ring.dirty < RING && s.mem.use < MEMS && s.mem.free < MEMS
  }

  // ---------------------------------------------------------------- outputStart

  predicate FillOk(s: State) {
    Sized(s) && s.out.Filling? && s.out.first < RING && s.out.index < RING && s.out.i < |s.out.q.segs|
  }

  /** The descriptor loop from segment i on, and the hand-over of the first descriptor. */
  function Fill(s: State): (t: State)
    requires FillOk(s)
    ensures Sized(t) && t.out.Ready? && t.irq == s.irq && t.log == s.log && t.mem == s.mem && t.dev == s.dev
    ensures t.ring == s.ring.(desc := t.ring.desc, mbuf := t.ring.mbuf)
    decreases |s.out.q.segs| - s.out.i
  {
    var u := StoreDesc(StoreMbuf(s));
    if u.out.Filling? then Fill(u) else GiveFirst(u)
  }

  /** txMapPacket takes a memory descriptor for the packet. */
  predicate Tried(cfg: Config, s: State, req: Request) {
    cfg.vtd && s.mem.numFree > 1 && !req.mapping.TooLong?
  }

  /** The packet gets descriptors.  Without a memory descriptor to try it with, a mapping of
      txMapPacket does not fail. */
  predicate Goes(cfg: Config, s: State, req: Request) {
    req.segs != [] && (req.mapping.Works? || (cfg.vtd && !Tried(cfg, s, req)))
  }

  /** One turn of the loop over packets. */
  function Queue(cfg: Config, s: State, req: Request): (t: State)
    requires Sized(s) && CanDequeue(s) && Fit(req)
    ensures Sized(t) && t.out.Ready? && t.irq == s.irq && t.dev == s.dev
    ensures t.log.dequeued == s.log.dequeued + 1
    // It is queued if it has segments and could be mapped; with no memory descriptor to spare
    // it is queued unmapped.  Otherwise it is freed.
    ensures var goes := req.segs != [] && (req.mapping.Works? || (cfg.vtd && s.mem.numFree <= 1));
            && t.log.queue == s.log.queue + (if goes then [Queued(s.log.dequeued, req.opts, req.segs)] else [])
            && t.log.freed == s.log.freed + (if goes then [] else [s.log.dequeued])
            && t.ring.free == s.ring.free - (if goes then |req.segs| else 0)
    ensures t.mem.numFree == s.mem.numFree - if cfg.vtd && s.mem.numFree > 1 && req.mapping.Works? then 1 else 0
  {
    var u := Dequeue(s, req.opts);
    if Goes(cfg, s, req) then Fill(Claim(Map(cfg, u, req.segs)))
    else if !Tried(cfg, s, req) then Drop(u)
    else if req.mapping.Fails? then Fail(u, |req.segs|, req.mapping.tagged)
    else Lose(u)
  }

  predicate Fits(reqs: seq<Request>) {
    forall i :: 0 <= i < |reqs| ==> Fit(reqs[i])
  }

  /** Take packets while enough descriptors are free. */
  function Output(cfg: Config, s: State, reqs: seq<Request>): State
    requires Sized(s) && s.out.Ready? && Fits(reqs)
    decreases |reqs|
  {
    if reqs == [] || !CanDequeue(s) then s
    else Output(cfg, Queue(cfg, s, reqs[0]), reqs[1..])
  }

  /** Packet q is what request number q.pkt - first asked for. */
  predicate AskedFor(vtd: bool, q: Queued, reqs: seq<Request>, first: Packet, taken: nat) {
    && first <= q.pkt < first + taken <= first + |reqs|
    && var req := reqs[q.pkt - first];
       q.opts == req.opts && q.segs == req.segs && req.segs != [] && (vtd || req.mapping.Works?)
  }

  ghost predicate AllAskedFor(vtd: bool, added: seq<Queued>, reqs: seq<Request>, first: Packet, taken: nat) {
    forall i :: 0 <= i < |added| ==> AskedFor(vtd, added[i], reqs, first, taken)
  }

  ghost predicate Rising(added: seq<Queued>) {
    forall i, j :: 0 <= i < j < |added| ==> added[i].pkt < added[j].pkt
  }

  ghost predicate NoneMissing(added: seq<Queued>, reqs: seq<Request>, first: Packet, taken: nat) {
    && taken <= |reqs|
    && forall n :: 0 <= n < taken && reqs[n].segs != [] && reqs[n].mapping.Works? ==>
         Queued(first + n, reqs[n].opts, reqs[n].segs) in added
  }

  /** `added` are the packets queued for the first `taken` requests: each with the offload words
      and segments of the request it came from, in the order of the requests.  None that could
      be mapped is missing; none that has no segments, or could not be mapped by the mbuf cursor,
      is among them. */
  ghost predicate QueuedFrom(vtd: bool, added: seq<Queued>, reqs: seq<Request>, first: Packet, taken: nat) {
    && AllAskedFor(vtd, added, reqs, first, taken) && Rising(added)
    && NoneMissing(added, reqs, first, taken)
  }

  /** What is queued for one request. */
  predicate HeadFor(vtd: bool, head: seq<Queued>, req: Request, pkt: Packet) {
    && (head == [] || (head == [Queued(pkt, req.opts, req.segs)] && req.segs != [] && (vtd || req.mapping.Works?)))
    && (req.segs != [] && req.mapping.Works? ==> head != [])
  }

  lemma AskedMore(vtd: bool, head: seq<Queued>, rest: seq<Queued>, reqs: seq<Request>, first: Packet, taken: nat)
    requires reqs != [] && AllAskedFor(vtd, rest, reqs[1..], first + 1, taken) && taken < |reqs|
    requires HeadFor(vtd, head, reqs[0], first)
    ensures AllAskedFor(vtd, head + rest, reqs, first, taken + 1)
  {
    var added := head + rest;
    forall i | 0 <= i < |added| ensures AskedFor(vtd, added[i], reqs, first, taken + 1) {
      if i >= |head| {
        assert AskedFor(vtd, rest[i - |head|], reqs[1..], first + 1, taken);
      }
    }
  }

  lemma RisingMore(vtd: bool, head: seq<Queued>, rest: seq<Queued>, reqs: seq<Request>, first: Packet, taken: nat)
    requires AllAskedFor(vtd, rest, reqs, first + 1, taken) && Rising(rest)
    requires head == [] || (|head| == 1 && head[0].pkt == first)
    ensures Rising(head + rest)
  {
    var added := head + rest;
    forall i, j | 0 <= i < j < |added| ensures added[i].pkt < added[j].pkt {
      assert AskedFor(vtd, rest[j - |head|], reqs, first + 1, taken);
    }
  }

  lemma MissingMore(vtd: bool, head: seq<Queued>, rest: seq<Queued>, reqs: seq<Request>, first: Packet, taken: nat)
    requires reqs != [] && NoneMissing(rest, reqs[1..], first + 1, taken) && HeadFor(vtd, head, reqs[0], first)
    ensures NoneMissing(head + rest, reqs, first, taken + 1)
  {
    forall n | 0 <= n < taken + 1 && reqs[n].segs != [] && reqs[n].mapping.Works?
      ensures Queued(first + n, reqs[n].opts, reqs[n].segs) in head + rest
    {
      if n > 0 {
        assert reqs[1..][n - 1] == reqs[n];
        assert Queued(first + 1 + (n - 1), reqs[n].opts, reqs[n].segs) in rest;
      } else {
        assert head[0] in head;
      }
    }
  }

  lemma QueuedMore(vtd: bool, head: seq<Queued>, rest: seq<Queued>, reqs: seq<Request>, first: Packet, taken: nat)
    requires reqs != [] && QueuedFrom(vtd, rest, reqs[1..], first + 1, taken) && HeadFor(vtd, head, reqs[0], first)
    ensures QueuedFrom(vtd, head + rest, reqs, first, taken + 1)
  {
    AskedMore(vtd, head, rest, reqs, first, taken);
    RisingMore(vtd, head, rest, reqs[1..], first, taken);
    MissingMore(vtd, head, rest, reqs, first, taken);
  }

  lemma QueueHead(cfg: Config, s: State, req: Request) returns (head: seq<Queued>)
    requires Sized(s) && CanDequeue(s) && Fit(req)
    ensures var t := Queue(cfg, s, req);
            t.log.queue == s.log.queue + head && HeadFor(cfg.vtd, head, req, s.log.dequeued)
  {
    head := Queue(cfg, s, req).log.queue[|s.log.queue|..];
  }

  lemma OutputNext(cfg: Config, s: State, reqs: seq<Request>)
    requires Sized(s) && s.out.Ready? && Fits(reqs) && reqs != [] && CanDequeue(s)
    ensures var u := Queue(cfg, s, reqs[0]);
            && Fits(reqs[1..]) && Output(cfg, s, reqs) == Output(cfg, u, reqs[1..])
            && Sized(u) && u.out.Ready? && u.log.dequeued == s.log.dequeued + 1
  {
  }

  /** Between two states the requests were taken in order, and `added` was queued for them. */
  ghost predicate Adds(vtd: bool, a: History, b: History, reqs: seq<Request>, added: seq<Queued>) {
    && a.dequeued <= b.dequeued && b.queue == a.queue + added
    && QueuedFrom(vtd, added, reqs, a.dequeued, b.dequeued - a.dequeued)
  }

  lemma Regroup(a: seq<Queued>, b: seq<Queued>, c: seq<Queued>)
    ensures (a + b) + c == a + (b + c)
  {
  }

  lemma AddsMore(vtd: bool, a: History, b: History, c: History, reqs: seq<Request>,
                 head: seq<Queued>, rest: seq<Queued>, n: nat)
    requires reqs != [] && b.dequeued == a.dequeued + 1 && b.queue == a.queue + head
    requires HeadFor(vtd, head, reqs[0], a.dequeued) && n == c.dequeued - b.dequeued
    requires c.queue == b.queue + rest && QueuedFrom(vtd, rest, reqs[1..], a.dequeued + 1, n)
    ensures a.dequeued <= c.dequeued && c.queue == a.queue + (head + rest)
    ensures QueuedFrom(vtd, head + rest, reqs, a.dequeued, n + 1)
  {
    Regroup(a.queue, head, rest);
    QueuedMore(vtd, head, rest, reqs, a.dequeued, n);
  }

  /** outputStart takes the packets as the stack queued them and in that order: what it adds to
      the queue are those requests, each under its own packet's number. */
  lemma {:induction false} TakesInOrder(cfg: Config, s: State, reqs: seq<Request>) returns (added: seq<Queued>)
    requires Sized(s) && s.out.Ready? && Fits(reqs)
    ensures Adds(cfg.vtd, s.log, Output(cfg, s, reqs).log, reqs, added)
    decreases |reqs|
  {
    if reqs == [] || !CanDequeue(s) {
      added := [];
    } else {
      OutputNext(cfg, s, reqs);
      var u := Queue(cfg, s, reqs[0]);
      var head := QueueHead(cfg, s, reqs[0]);
      var rest := TakesInOrder(cfg, u, reqs[1..]);
      var t := Output(cfg, s, reqs);
      AddsMore(cfg.vtd, s.log, u.log, t.log, reqs, head, rest, t.log.dequeued - u.log.dequeued);
      added := head + rest;
    }
  }

  // ---------------------------------------------------------------- txInterrupt

  /** One turn of the loop over completed descriptors. */
  function ReleaseOne(cfg: Config, s: State): (t: State)
    requires Sized(s) && At(s, Scan)
    ensures Sized(t) && t.irq == Busy(s.irq.n - 1, None, Scan) && t.out == s.out && t.dev == s.dev
    ensures t.log.done == s.log.done + 1
    ensures t.log.completed == s.log.completed +
              match s.ring.mbuf[s.ring.dirty] case Some(m) => [m] case None => []
  {
    var a := ClearSlot(Take(s));
    var b := if a.irq.m.None? then a else Free(if cfg.vtd then Unmap(a) else a);
    Advance(Release(b))
  }

  function ReleaseAll(cfg: Config, s: State): State
    requires Sized(s) && s.irq.Busy? && s.irq.at == Scan
    decreases s.irq.n
  {
    if s.irq.n == 0 then s.(irq := Idle) else ReleaseAll(cfg, ReleaseOne(cfg, s))
  }

  // ---------------------------------------------------------------- calls are runs

  predicate OutputStep(step: Step) {
    || step.DequeueStep? || step.DropStep? || step.MapStep? || step.FailStep? || step.LoseStep? || step.ClaimStep?
    || step.StoreMbufStep? || step.StoreDescStep? || step.GiveFirstStep? || step.DoorbellStep?
  }

  predicate HandlerStep(step: Step) {
    || step.ReadCloseStep? || step.TakeStep? || step.ClearSlotStep? || step.UnmapStep?
    || step.FreeStep? || step.ReleaseStep? || step.AdvanceStep? || step.FinishStep?
  }

  /** Some steps of the output thread lead from s to t. */
  ghost predicate OutputRun(cfg: Config, s: State, t: State) {
    exists trace :: Run(cfg, s, trace) == Some(t) && forall i :: 0 <= i < |trace| ==> OutputStep(trace[i])
  }

  /** Some steps of the completion handler lead from s to t. */
  ghost predicate HandlerRun(cfg: Config, s: State, t: State) {
    exists trace :: Run(cfg, s, trace) == Some(t) && forall i :: 0 <= i < |trace| ==> HandlerStep(trace[i])
  }

  lemma {:induction false} RunAppend(cfg: Config, s: State, a: seq<Step>, t: State, b: seq<Step>)
    requires Run(cfg, s, a) == Some(t)
    ensures Run(cfg, s, a + b) == Run(cfg, t, b)
    decreases |b|
  {
    if b == [] {
      assert a + b == a;
    } else {
      var b' := b[..|b| - 1];
      assert (a + b)[..|a + b| - 1] == a + b';
      RunAppend(cfg, s, a, t, b');
    }
  }

  lemma OutputTrans(cfg: Config, s: State, t: State, u: State)
    requires OutputRun(cfg, s, t) && OutputRun(cfg, t, u)
    ensures OutputRun(cfg, s, u)
  {
    var a :| Run(cfg, s, a) == Some(t) && forall i :: 0 <= i < |a| ==> OutputStep(a[i]);
    var b :| Run(cfg, t, b) == Some(u) && forall i :: 0 <= i < |b| ==> OutputStep(b[i]);
    RunAppend(cfg, s, a, t, b);
    assert forall i :: 0 <= i < |a + b| ==> OutputStep((a + b)[i]);
  }

  lemma HandlerTrans(cfg: Config, s: State, t: State, u: State)
    requires HandlerRun(cfg, s, t) && HandlerRun(cfg, t, u)
    ensures HandlerRun(cfg, s, u)
  {
    var a :| Run(cfg, s, a) == Some(t) && forall i :: 0 <= i < |a| ==> HandlerStep(a[i]);
    var b :| Run(cfg, t, b) == Some(u) && forall i :: 0 <= i < |b| ==> HandlerStep(b[i]);
    RunAppend(cfg, s, a, t, b);
    assert forall i :: 0 <= i < |a + b| ==> HandlerStep((a + b)[i]);
  }

  lemma RunOne(cfg: Config, s: State, step: Step)
    requires Can(cfg, s, step)
    ensures Run(cfg, s, [step]) == Some(Do(cfg, s, step))
  {
    assert [step][..0] == [];
  }

  lemma OutputOne(cfg: Config, s: State, step: Step)
    requires Can(cfg, s, step) && OutputStep(step)
    ensures OutputRun(cfg, s, Do(cfg, s, step))
  {
    RunOne(cfg, s, step);
    assert forall i :: 0 <= i < |[step]| ==> OutputStep([step][i]);
  }

  lemma HandlerOne(cfg: Config, s: State, step: Step)
    requires Can(cfg, s, step) && HandlerStep(step)
    ensures HandlerRun(cfg, s, Do(cfg, s, step))
  {
    RunOne(cfg, s, step);
    assert forall i :: 0 <= i < |[step]| ==> HandlerStep([step][i]);
  }

  lemma FillTurnIsRun(cfg: Config, s: State)
    requires FillOk(s) && !s.out.stored
    ensures OutputRun(cfg, s, StoreDesc(StoreMbuf(s)))
  {
    OutputOne(cfg, s, StoreMbufStep);
    OutputOne(cfg, StoreMbuf(s), StoreDescStep);
    OutputTrans(cfg, s, StoreMbuf(s), StoreDesc(StoreMbuf(s)));
  }

  lemma {:induction false} FillIsRun(cfg: Config, s: State)
    requires FillOk(s) && !s.out.stored
    ensures OutputRun(cfg, s, Fill(s))
    decreases |s.out.q.segs| - s.out.i
  {
    var u := StoreDesc(StoreMbuf(s));
    FillTurnIsRun(cfg, s);
    if u.out.Filling? {
      FillIsRun(cfg, u);
    } else {
      OutputOne(cfg, u, GiveFirstStep);
    }
    OutputTrans(cfg, s, u, Fill(s));
  }

  lemma QueueIsRun(cfg: Config, s: State, req: Request)
    requires Sized(s) && CanDequeue(s) && Fit(req)
    ensures OutputRun(cfg, s, Queue(cfg, s, req))
  {
    var u := Dequeue(s, req.opts);
    OutputOne(cfg, s, DequeueStep(req.opts));
    if Goes(cfg, s, req) {
      GoesIsRun(cfg, u, req.segs);
    } else if !Tried(cfg, s, req) {
      OutputOne(cfg, u, DropStep);
    } else if req.mapping.Fails? {
      OutputOne(cfg, u, FailStep(|req.segs|, req.mapping.tagged));
    } else {
      OutputOne(cfg, u, LoseStep);
    }
    OutputTrans(cfg, s, u, Queue(cfg, s, req));
  }

  lemma GoesIsRun(cfg: Config, s: State, segs: seq<Segment>)
    requires Sized(s) && CanMap(s, segs)
    ensures OutputRun(cfg, s, Fill(Claim(Map(cfg, s, segs))))
  {
    var t := Map(cfg, s, segs);
    OutputOne(cfg, s, MapStep(segs));
    OutputOne(cfg, t, ClaimStep);
    FillIsRun(cfg, Claim(t));
    OutputTrans(cfg, s, t, Claim(t));
    OutputTrans(cfg, s, Claim(t), Fill(Claim(t)));
  }

  lemma {:induction false} OutputIsRun(cfg: Config, s: State, reqs: seq<Request>)
    requires Sized(s) && s.out.Ready? && Fits(reqs)
    ensures Output(cfg, s, reqs).out.Ready?
    ensures OutputRun(cfg, s, Doorbell(cfg, Output(cfg, s, reqs)))
    decreases |reqs|
  {
    if reqs == [] || !CanDequeue(s) {
      OutputOne(cfg, s, DoorbellStep);
    } else {
      var t := Queue(cfg, s, reqs[0]);
      QueueIsRun(cfg, s, reqs[0]);
      OutputIsRun(cfg, t, reqs[1..]);
      OutputTrans(cfg, s, t, Doorbell(cfg, Output(cfg, s, reqs)));
    }
  }

  lemma ReleaseOneIsRun(cfg: Config, s: State)
    requires Sized(s) && At(s, Scan)
    ensures HandlerRun(cfg, s, ReleaseOne(cfg, s))
  {
    var a := Take(s);
    var b := ClearSlot(a);
    HandlerOne(cfg, s, TakeStep);
    HandlerOne(cfg, a, ClearSlotStep);
    HandlerTrans(cfg, s, a, b);
    var c := b;
    if b.irq.m.Some? {
      c := GiveBackIsRun(cfg, b);
      HandlerTrans(cfg, s, b, c);
    }
    HandlerOne(cfg, c, ReleaseStep);
    HandlerOne(cfg, Release(c), AdvanceStep);
    HandlerTrans(cfg, s, c, Release(c));
    HandlerTrans(cfg, s, Release(c), Advance(Release(c)));
  }

  lemma GiveBackIsRun(cfg: Config, s: State) returns (t: State)
    requires Sized(s) && At(s, Cleared) && s.irq.m.Some?
    ensures t == Free(if cfg.vtd then Unmap(s) else s) && HandlerRun(cfg, s, t)
  {
    if cfg.vtd {
      HandlerOne(cfg, s, UnmapStep);
      HandlerOne(cfg, Unmap(s), FreeStep);
      t := Free(Unmap(s));
      HandlerTrans(cfg, s, Unmap(s), t);
    } else {
      HandlerOne(cfg, s, FreeStep);
      t := Free(s);
    }
  }

  lemma {:induction false} ReleaseAllIsRun(cfg: Config, s: State)
    requires Sized(s) && s.irq.Busy? && s.irq.at == Scan
    ensures HandlerRun(cfg, s, ReleaseAll(cfg, s))
    decreases s.irq.n
  {
    if s.irq.n == 0 {
      HandlerOne(cfg, s, FinishStep);
    } else {
      ReleaseOneIsRun(cfg, s);
      ReleaseAllIsRun(cfg, ReleaseOne(cfg, s));
      HandlerTrans(cfg, s, ReleaseOne(cfg, s), ReleaseAll(cfg, s));
    }
  }

  /** txInterrupt, from reading the close pointer to the end of its loop. */
  lemma InterruptIsRun(cfg: Config, s: State, v: nat)
    requires Sized(s) && CanReadClose(cfg, s, v)
    ensures HandlerRun(cfg, s, ReleaseAll(cfg, ReadClose(cfg, s, v)))
  {
    var t := ReadClose(cfg, s, v);
    HandlerOne(cfg, s, ReadCloseStep(v));
    ReleaseAllIsRun(cfg, t);
    HandlerTrans(cfg, s, t, ReleaseAll(cfg, t));
  }
}
