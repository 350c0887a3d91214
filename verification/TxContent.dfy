/** Every step keeps the meaning of the descriptors: packets queued, sent and freed. */
module TxContent {
  import opened Options
  import opened TxSizes
  import opened TxModel
  import opened TxFrames
  import opened TxSafety

  // ---------------------------------------------------------------- accounting

  lemma AccountDequeue(freed: seq<Packet>, inFlight: seq<Packet>, n: nat)
    requires Accounted(freed, inFlight, None, n)
    ensures Accounted(freed, inFlight, Some(n), n + 1)
  {
  }

  lemma AccountDrop(freed: seq<Packet>, inFlight: seq<Packet>, p: Packet, n: nat)
    requires Accounted(freed, inFlight, Some(p), n)
    ensures Accounted(freed + [p], inFlight, None, n)
  {
  }

  lemma AccountClaim(freed: seq<Packet>, inFlight: seq<Packet>, p: Packet, n: nat)
    requires Accounted(freed, inFlight, Some(p), n)
    ensures Accounted(freed, inFlight + [p], None, n)
  {
  }

  lemma AccountFree(freed: seq<Packet>, inFlight: seq<Packet>, p: Packet, held: Option<Packet>, n: nat)
    requires Accounted(freed, [p] + inFlight, held, n)
    ensures Accounted(freed + [p], inFlight, held, n)
  {
    forall x: Packet ensures Times([p] + inFlight, x) == (if x == p then 1 else 0) + Times(inFlight, x) {
    }
  }

  // ---------------------------------------------------------------- steps

  lemma DequeueConserved(log: History, f: nat)
    requires Conserved(None, log, f)
    ensures Conserved(Some(log.dequeued), log.(dequeued := log.dequeued + 1), f)
  {
    AccountDequeue(log.freed, Lasts(log.hist[f..]), log.dequeued);
  }

  lemma DequeueContent(s: State, opts: Opts)
    requires Content(s) && s.out.Ready?
    ensures Content(Dequeue(s, opts))
  {
    DequeueConserved(s.log, FreedCount(s.irq, s.log.done));
  }

  lemma DropConserved(log: History, p: Packet, f: nat)
    requires Conserved(Some(p), log, f)
    ensures Conserved(None, log.(freed := log.freed + [p]), f)
  {
    AccountDrop(log.freed, Lasts(log.hist[f..]), p, log.dequeued);
  }

  lemma DropContent(s: State)
    requires Content(s) && s.out.Holding?
    ensures Content(Drop(s))
  {
    DropConserved(s.log, s.out.pkt, FreedCount(s.irq, s.log.done));
  }

  lemma FailContent(s: State, n: nat, tagged: bool)
    requires Content(s) && s.out.Holding? && s.mem.use < |s.mem.io|
    ensures Content(Fail(s, n, tagged)) && Content(Lose(s))
  {
    DropContent(s);
  }

  lemma ClaimSent(dev: Device, hist: seq<Rec>, more: seq<Rec>, closed: nat)
    requires Sent(dev, hist, closed)
    ensures Sent(dev, hist + more, closed)
  {
    assert (hist + more)[..closed] == hist[..closed];
  }

  lemma ClaimLasts(h: seq<Rec>, q: Queued, f: nat)
    requires f <= |h| && 1 <= |q.segs|
    ensures Lasts((h + Recs(q))[f..]) == Lasts(h[f..]) + [q.pkt]
    ensures Lasts((h + Recs(q))[..f]) == Lasts(h[..f])
  {
    LastsOfPacket(q);
    LastsAppend(h[f..], Recs(q));
    assert (h + Recs(q))[f..] == h[f..] + Recs(q);
    assert (h + Recs(q))[..f] == h[..f];
  }

  lemma ClaimConserved(log: History, q: Queued, f: nat)
    requires Conserved(Some(q.pkt), log, f) && 1 <= |q.segs|
    ensures Conserved(None, log.(queue := log.queue + [q], hist := log.hist + Recs(q)), f)
  {
    ClaimLasts(log.hist, q, f);
    AccountClaim(log.freed, Lasts(log.hist[f..]), q.pkt, log.dequeued);
  }

  lemma ClaimAnnounced(queue: seq<Queued>, announced: nat, rung: nat, q: Queued)
    requires Announced(queue, announced, rung)
    ensures Announced(queue + [q], announced, rung)
  {
    assert (queue + [q])[..announced] == queue[..announced];
  }

  lemma ClaimLaid(queue: seq<Queued>, hist: seq<Rec>, q: Queued)
    requires Laid(queue, hist) && 1 <= |q.segs| <= MAX_SEGS
    ensures Laid(queue + [q], hist + Recs(q))
  {
    FlatAppend(queue, q);
  }

  lemma ClaimContent(s: State)
    requires Content(s) && s.out.Mapped? && 1 <= |s.out.segs| <= MAX_SEGS
    ensures Content(Claim(s))
  {
    var q := Queued(s.out.pkt, s.out.opts, s.out.segs);
    ClaimLaid(s.log.queue, s.log.hist, q);
    ClaimSent(s.dev, s.log.hist, Recs(q), s.log.closed);
    ClaimConserved(s.log, q, FreedCount(s.irq, s.log.done));
    ClaimAnnounced(s.log.queue, s.log.announced, s.log.rung, q);
    assert Claim(s).log == s.log.(queue := s.log.queue + [q], hist := s.log.hist + Recs(q));
  }

  lemma FetchSent(cfg: Config, dev: Device, desc: seq<Desc>, hist: seq<Rec>, closed: nat)
    requires Sent(dev, hist, closed) && closed < |hist|
    requires dev.idx < |desc| && desc[dev.idx] == Encode(hist[closed], dev.idx, true)
    ensures Sent(Consume(cfg, dev, desc), hist, closed + 1)
  {
    ParseStep(hist, closed);
  }

  lemma FetchContent(cfg: Config, s: State)
    requires Content(s) && s.log.closed < |s.log.hist| && s.dev.idx < |s.ring.desc|
    requires s.ring.desc[s.dev.idx] == Encode(s.log.hist[s.log.closed], s.dev.idx, true)
    ensures Content(Fetch(cfg, s))
  {
    FetchSent(cfg, s.dev, s.ring.desc, s.log.hist, s.log.closed);
  }

  lemma FreeConserved(held: Option<Packet>, log: History, k: nat)
    requires Conserved(held, log, k) && k < |log.hist| && log.hist[k].last
    ensures var p := log.hist[k].pkt;
            Conserved(held, log.(freed := log.freed + [p], completed := log.completed + [p]), k + 1)
  {
    LastsStep(log.hist, k);
    AccountFree(log.freed, Lasts(log.hist[k + 1..]), log.hist[k].pkt, held, log.dequeued);
  }

  lemma FreeContent(s: State)
    requires Content(s) && s.irq.Busy? && FreedCount(s.irq, s.log.done) == s.log.done
    requires s.log.done < |s.log.hist| && s.irq.m.Some? && s.irq.m == Slot(s.log.hist[s.log.done])
    ensures Content(Free(s))
  {
    FreeConserved(Held(s.out), s.log, s.log.done);
  }

  lemma ReleaseConserved(held: Option<Packet>, log: History, k: nat)
    requires Conserved(held, log, k) && k < |log.hist| && !log.hist[k].last
    ensures Conserved(held, log, k + 1)
  {
    LastsStep(log.hist, k);
  }

  lemma ReleaseContent(s: State)
    requires Content(s) && s.irq.Busy?
    requires s.irq.at.Freed? ||
             (FreedCount(s.irq, s.log.done) == s.log.done < |s.log.hist| && !s.log.hist[s.log.done].last)
    ensures Content(Release(s))
  {
    if !s.irq.at.Freed? {
      ReleaseConserved(Held(s.out), s.log, s.log.done);
    }
  }

  lemma DoorbellContent(cfg: Config, s: State)
    requires Content(s)
    ensures Content(Doorbell(cfg, s))
  {
    assert s.log.queue[..|s.log.queue|] == s.log.queue;
  }

  // ---------------------------------------------------------------- reset

  lemma {:induction false} SomesAppend(a: seq<Option<Packet>>, b: seq<Option<Packet>>)
    ensures Somes(a + b) == Somes(a) + Somes(b)
    decreases |b|
  {
    if b == [] {
      assert a + b == a;
    } else {
      assert (a + b)[..|a + b| - 1] == a + b[..|b| - 1];
      SomesAppend(a, b[..|b| - 1]);
    }
  }

  /** Somes lists what the slots hold, in slot order. */
  lemma SomesInOrder(a: seq<Option<Packet>>, p: Packet, b: seq<Option<Packet>>)
    ensures Somes(a + [Some(p)] + b) == Somes(a) + [p] + Somes(b) && Somes(a + [None] + b) == Somes(a) + Somes(b)
    ensures Somes([]) == []
  {
    SomesAppend(a + [Some(p)], b);
    SomesAppend(a + [None], b);
    assert (a + [Some(p)])[..|a|] == a && (a + [None])[..|a|] == a;
  }

  lemma {:induction false} SomesOfSlots(slots: seq<Option<Packet>>, h: seq<Rec>)
    requires |slots| == |h|
    requires forall i :: 0 <= i < |h| ==> slots[i] == Slot(h[i])
    ensures Somes(slots) == Lasts(h)
  {
    if h != [] {
      SomesOfSlots(slots[..|h| - 1], h[..|h| - 1]);
    }
  }

  lemma {:induction false} SomesOfNone(slots: seq<Option<Packet>>)
    requires forall i :: 0 <= i < |slots| ==> slots[i] == None
    ensures Somes(slots) == []
  {
    if slots != [] {
      SomesOfNone(slots[..|slots| - 1]);
    }
  }

  /** Read from the dirty index round the ring, the slots hold the packets in flight. */
  lemma SlotsTurned(s: State, k: nat)
    requires Control(s) && s.irq.Idle? && s.out.Ready? && k < RING
    ensures var turned := s.ring.mbuf[s.ring.dirty..] + s.ring.mbuf[..s.ring.dirty];
            && |turned| == RING && s.log.done <= |s.log.hist| <= s.log.done + RING
            && turned[k] == if k < |s.log.hist| - s.log.done then Slot(s.log.hist[s.log.done + k]) else None
  {
    var i := Skip(s.ring.dirty, k);
    assert Dist(s.ring.dirty, i) == k;
    assert s.ring.mbuf[i] == (s.ring.mbuf[s.ring.dirty..] + s.ring.mbuf[..s.ring.dirty])[k];
  }

  lemma SomesTurned(mbuf: seq<Option<Packet>>, d: nat)
    requires d <= |mbuf|
    ensures multiset(Somes(mbuf)) == multiset(Somes(mbuf[d..] + mbuf[..d]))
  {
    assert mbuf == mbuf[..d] + mbuf[d..];
    SomesSwap(mbuf[..d], mbuf[d..]);
  }

  lemma SomesSwap(a: seq<Option<Packet>>, b: seq<Option<Packet>>)
    ensures multiset(Somes(a + b)) == multiset(Somes(b + a))
  {
    SomesAppend(a, b);
    SomesAppend(b, a);
  }

  lemma SomesOfWindow(slots: seq<Option<Packet>>, h: seq<Rec>)
    requires |h| <= |slots|
    requires forall k :: 0 <= k < |slots| ==> slots[k] == if k < |h| then Slot(h[k]) else None
    ensures Somes(slots) == Lasts(h)
  {
    SomesOfSlots(slots[..|h|], h);
    SomesOfNone(slots[|h|..]);
    SomesAppend(slots[..|h|], slots[|h|..]);
    assert slots == slots[..|h|] + slots[|h|..];
  }

  lemma SomesInFlight(s: State)
    requires Control(s) && s.irq.Idle? && s.out.Ready?
    ensures multiset(Somes(s.ring.mbuf)) == multiset(Lasts(s.log.hist[s.log.done..]))
  {
    var turned := s.ring.mbuf[s.ring.dirty..] + s.ring.mbuf[..s.ring.dirty];
    var h := s.log.hist[s.log.done..];
    assert |turned| == RING && |h| <= RING
        && forall k :: 0 <= k < RING ==> turned[k] == if k < |h| then Slot(h[k]) else None by {
      SlotsTurned(s, 0);
      forall k: nat | k < RING ensures turned[k] == if k < |h| then Slot(h[k]) else None {
        SlotsTurned(s, k);
      }
    }
    SomesOfWindow(turned, h);
    SomesTurned(s.ring.mbuf, s.ring.dirty);
  }

  lemma ClearContent(s: State)
    requires Control(s) && Content(s) && CanClear(s)
    ensures Content(Clear(s))
  {
    SomesInFlight(s);
    assert Clear(s).log.hist[..0] == [];
    assert Clear(s).log.hist[0..] == [];
  }

  lemma ClearControl(s: State)
    requires Control(s) && CanClear(s)
    ensures Control(Clear(s))
  {
  }
}
