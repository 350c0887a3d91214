/** What the transmit protocol promises in every reachable state, for every interleaving. */
module TxPromises {
  import opened Options
  import opened TxSizes
  import opened TxModel
  import opened TxFrames
  import opened TxSafety
  import opened TxContent
  import opened TxTheorems
  import opened Arithmetic

  lemma ReachableInv(cfg: Config, s: State)
    requires Reachable(cfg, s)
    ensures Inv(cfg, s)
  {
    var steps :| Run(cfg, Init(), steps) == Some(s);
    RunInv(cfg, steps, s);
  }

  // ---------------------------------------------------------------- descriptor accounting

  /** Free and claimed descriptors add up to the ring, and four always stay free. */
  lemma FreePlusClaimed(cfg: Config, s: State)
    requires Reachable(cfg, s)
    ensures s.ring.free + (|s.log.hist| - ReleasedCount(s.irq, s.log.done)) == RING
    ensures 4 <= s.ring.free <= RING
    ensures s.out.Mapped? ==> s.ring.free - |s.out.segs| >= 4
  {
    ReachableInv(cfg, s);
  }

  /** The packet slot the output thread writes is never the one the handler is working on,
      and the handler only works on descriptors the device has closed. */
  lemma ThreadsUseDifferentSlots(cfg: Config, s: State)
    requires Reachable(cfg, s)
    requires s.out.Filling? && s.irq.Busy? && s.irq.n > 0
    ensures s.out.index != s.ring.dirty
    ensures s.log.done < s.log.closed <= |s.log.hist| - |s.out.q.segs|
  {
    ReachableInv(cfg, s);
  }

  /** The ring indices follow the free-running pointers modulo the ring size. */
  lemma IndicesFollowPointers(cfg: Config, s: State)
    requires Reachable(cfg, s)
    ensures s.ring.next == s.ring.tail % RING == |s.log.hist| % RING
    ensures s.ring.dirty == s.log.done % RING
    ensures s.irq.Idle? ==> s.ring.dirty == s.ring.close % RING
    ensures s.dev.idx == s.dev.close % RING
  {
    ReachableInv(cfg, s);
    PointersModRing(cfg.width, s.ring, s.dev, s.irq, s.log);
    IndicesModRing(s.ring, s.dev, s.log);
  }

  lemma PointersModRing(w: Width, ring: Ring, dev: Device, irq: IrqPc, log: History)
    requires Pointers(w, ring, dev, irq, log)
    ensures ring.tail % RING == |log.hist| % RING
    ensures irq.Idle? ==> ring.close % RING == log.done % RING
    ensures dev.close % RING == log.closed % RING
  {
    PtrMod(Bits32, |log.hist|);
    PtrMod(w, log.closed);
    PtrMod(w, SeenCount(irq, log.done));
    PtrMod(w, ring.close);
  }

  lemma IndicesModRing(ring: Ring, dev: Device, log: History)
    requires Indices(ring, dev, log) && ring.dirty == log.done % RING
    requires log.done <= log.closed <= |log.hist| <= log.done + RING
    ensures ring.next == |log.hist| % RING
    ensures dev.idx == log.closed % RING
  {
    SkipMod(log.done, |log.hist| - log.done);
    SkipMod(log.done, log.closed - log.done);
  }

  lemma {:induction false} PtrMod(w: Width, c: nat)
    ensures Ptr(w, c) % RING == c % RING
  {
    if c >= Span(w) {
      PtrMod(w, c - Span(w));
      SpanLaps(w, c - Span(w));
    }
  }

  lemma SpanLaps(w: Width, x: nat)
    ensures (x + Span(w)) % RING == x % RING
  {
    var k := match w case Bits16 => 0x40 case Bits31 => 0x20_0000 case Bits32 => 0x40_0000;
    DivModUnique(RING, x / RING + k, x % RING, x + Span(w));
  }

  lemma SkipMod(c: nat, n: nat)
    requires n <= RING
    ensures Skip(c % RING, n) == (c + n) % RING
  {
  }

  /** However often the pointers have wrapped, the handler computes exactly how many
      descriptors the device closed since its last look. */
  lemma CompletionCountExact(cfg: Config, s: State, v: nat)
    requires Reachable(cfg, s) && CanReadClose(cfg, s, v)
    ensures NumDone(cfg, v, s.ring.close) == s.log.closed - s.log.done
  {
    ReachableInv(cfg, s);
    ReadCloseExact(cfg, s, v);
  }

  /** The handler's test for progress, whether the dirty index has moved, is right: it never
      releases a whole turn of the ring at once. */
  lemma IndexShowsProgress(cfg: Config, s: State, v: nat)
    requires Reachable(cfg, s) && CanReadClose(cfg, s, v)
    ensures Skip(s.ring.dirty, NumDone(cfg, v, s.ring.close)) != s.ring.dirty <==> NumDone(cfg, v, s.ring.close) > 0
  {
    ReachableInv(cfg, s);
    ReadCloseExact(cfg, s, v);
  }

  // ---------------------------------------------------------------- what goes on the wire

  /** Each doorbell falls on a packet boundary, every descriptor up to it is written and
      owned, and only the last slot carries the ring-end mark. */
  lemma AnnouncedAreReady(cfg: Config, s: State, i: nat)
    requires Reachable(cfg, s) && i < RING
    ensures s.log.announced <= |s.log.queue| && s.log.rung <= |s.log.hist|
    ensures s.log.hist[..s.log.rung] == Flat(s.log.queue[..s.log.announced])
    ensures |s.ring.desc| == RING && (s.ring.desc[i].ringEnd <==> i == RING - 1)
    ensures var c := s.log.done + Dist(s.ring.dirty, i);
            s.log.closed <= c < s.log.rung ==> s.ring.desc[i] == Encode(s.log.hist[c], i, true)
  {
    ReachableReady(cfg, s);
    AnnouncedPrefix(s.log);
  }

  /** What a written descriptor holds. */
  lemma EncodeMeans(r: Rec, i: nat)
    requires i < RING
    ensures Encode(r, i, true) ==
            Desc(r.seg.location, r.opts.opts2, r.seg.length, r.opts.cmd, true, r.first, r.last, i == 1023)
    ensures Encode(r, i, false) == Encode(r, i, true).(own := false)
  {
  }

  /** While the other descriptors of a packet are being written, its first one is not owned: it
      is handed over last. */
  lemma FirstGivenLast(cfg: Config, s: State)
    requires Reachable(cfg, s) && ((s.out.Filling? && s.out.i > 0) || s.out.Owning?)
    ensures s.out.first < |s.ring.desc| && !s.ring.desc[s.out.first].own && s.ring.desc[s.out.first].first
  {
    ReachableInv(cfg, s);
    FirstWritten(s);
  }

  lemma FirstWritten(s: State)
    requires Control(s) && ((s.out.Filling? && s.out.i > 0) || s.out.Owning?)
    ensures s.out.first < |s.ring.desc| && !s.ring.desc[s.out.first].own && s.ring.desc[s.out.first].first
  {
    var k := SettledCount(s.out, |s.log.hist|);
    assert s.log.hist[k] == RecAt(s.out.q, 0);
    assert Dist(s.ring.dirty, s.out.first) == k - s.log.done;
  }

  lemma AnnouncedPrefix(log: History)
    requires Laid(log.queue, log.hist) && Announced(log.queue, log.announced, log.rung)
    ensures log.rung <= |log.hist| && log.hist[..log.rung] == Flat(log.queue[..log.announced])
    ensures Parse(log.hist[..log.rung]) == Parsed(Frames(log.queue[..log.announced]), [])
  {
    FlatPrefix(log.queue, log.announced);
    ParseFlat(log.queue[..log.announced]);
  }

  /** The device never meets a descriptor it does not own, and sends a prefix of the
      announced packets, in order, each with all its segments. */
  lemma WireIsPrefixOfQueue(cfg: Config, s: State)
    requires Reachable(cfg, s)
    ensures !s.dev.fault && s.log.announced <= |s.log.queue|
    ensures s.dev.wire <= Frames(s.log.queue[..s.log.announced]) <= Frames(s.log.queue)
  {
    ReachableInv(cfg, s);
    WirePrefix(s);
  }

  lemma WirePrefix(s: State)
    requires Content(s) && s.log.closed <= s.log.rung
    ensures s.dev.wire <= Frames(s.log.queue[..s.log.announced]) <= Frames(s.log.queue)
  {
    AnnouncedPrefix(s.log);
    ParseMonotone(s.log.hist[..s.log.rung], s.log.closed);
    assert s.log.hist[..s.log.rung][..s.log.closed] == s.log.hist[..s.log.closed];
  }

  predicate Moves(cfg: Config, desc: seq<Desc>, devs: seq<Device>, i: nat)
    requires i + 1 < |devs|
  {
    devs[i + 1] == Consume(cfg, devs[i], desc)
  }

  /** The device alone, consuming one descriptor after the other. */
  ghost predicate DeviceRun(cfg: Config, desc: seq<Desc>, devs: seq<Device>) {
    |devs| > 0 && forall i :: 0 <= i < |devs| - 1 ==> Moves(cfg, desc, devs, i)
  }

  /** The device stands at descriptor `closed` and everything up to `rung` is ready. */
  ghost predicate DeviceReady(w: Width, ring: Ring, done: nat, hist: seq<Rec>, rung: nat, dev: Device, closed: nat) {
    && ring.dirty < RING && done <= closed <= rung <= |hist| <= done + RING
    && Descs(ring.desc, ring.dirty, done, hist, closed, rung, rung)
    && dev.idx == Skip(ring.dirty, closed - done)
    && dev.tail == Ptr(w, rung) && dev.close == Ptr(w, closed)
    && Sent(dev, hist, closed)
  }

  lemma DeviceStep(cfg: Config, ring: Ring, done: nat, hist: seq<Rec>, rung: nat, dev: Device, closed: nat)
    requires DeviceReady(cfg.width, ring, done, hist, rung, dev, closed) && closed < rung
    ensures DeviceReady(cfg.width, ring, done, hist, rung, Consume(cfg, dev, ring.desc), closed + 1)
  {
    assert Dist(ring.dirty, dev.idx) == closed - done;
    FetchSent(cfg, dev, ring.desc, hist, closed);
    PtrAdd(cfg.width, closed, 1);
  }

  lemma {:induction false} RunReady(cfg: Config, ring: Ring, done: nat, hist: seq<Rec>, rung: nat,
                                    devs: seq<Device>, closed: nat, i: nat)
    requires DeviceRun(cfg, ring.desc, devs) && i < |devs| && closed + |devs| - 1 <= rung
    requires DeviceReady(cfg.width, ring, done, hist, rung, devs[0], closed)
    ensures DeviceReady(cfg.width, ring, done, hist, rung, devs[i], closed + i)
  {
    if i > 0 {
      RunReady(cfg, ring, done, hist, rung, devs, closed, i - 1);
      assert Moves(cfg, ring.desc, devs, i - 1);
      DeviceStep(cfg, ring, done, hist, rung, devs[i - 1], closed + i - 1);
    }
  }

  lemma ReachableReady(cfg: Config, s: State)
    requires Reachable(cfg, s)
    ensures DeviceReady(cfg.width, s.ring, s.log.done, s.log.hist, s.log.rung, s.dev, s.log.closed)
    ensures Laid(s.log.queue, s.log.hist) && Announced(s.log.queue, s.log.announced, s.log.rung)
  {
    ReachableInv(cfg, s);
  }

  /** Left to run, the device stops at the doorbell having sent exactly the announced
      packets: reading the ring by its flags recovers what was queued. */
  lemma DeviceSendsAnnounced(cfg: Config, s: State, devs: seq<Device>)
    requires Reachable(cfg, s)
    requires DeviceRun(cfg, s.ring.desc, devs) && devs[0] == s.dev
    requires |devs| - 1 == s.log.rung - s.log.closed
    ensures s.log.announced <= |s.log.queue|
    ensures var t := devs[|devs| - 1];
            && t.wire == Frames(s.log.queue[..s.log.announced])
            && t.acc == [] && !t.fault
            && t.close == t.tail
  {
    ReachableReady(cfg, s);
    AnnouncedPrefix(s.log);
    RunReady(cfg, s.ring, s.log.done, s.log.hist, s.log.rung, devs, s.log.closed, |devs| - 1);
  }

  // ---------------------------------------------------------------- freeing packets

  /** Packets are completed in queue order, and only after the device has sent them. */
  lemma CompletionIsFifo(cfg: Config, s: State)
    requires Reachable(cfg, s)
    ensures s.log.completed <= Packets(s.log.queue)
    ensures |s.log.completed| <= |s.dev.wire|
  {
    ReachableInv(cfg, s);
    CompletedPrefix(s.log, s.dev, FreedCount(s.irq, s.log.done));
  }

  lemma CompletedPrefix(log: History, dev: Device, f: nat)
    requires Laid(log.queue, log.hist) && Sent(dev, log.hist, log.closed)
    requires f <= log.closed && log.completed == Lasts(log.hist[..f])
    ensures log.completed <= Packets(log.queue)
    ensures |log.completed| <= |dev.wire|
  {
    LastsFlat(log.queue);
    LastsPrefix(log.hist, f, |log.hist|);
    assert log.hist[..|log.hist|] == log.hist;
    LastsCountWire(log.hist[..log.closed]);
    LastsPrefix(log.hist, f, log.closed);
  }

  lemma LastsPrefix(h: seq<Rec>, f: nat, k: nat)
    requires f <= k <= |h|
    ensures Lasts(h[..f]) <= Lasts(h[..k])
  {
    LastsAppend(h[..f], h[f..k]);
    assert h[..f] + h[f..k] == h[..k];
  }

  /** The packets whose last descriptor has not been given back yet. */
  function InFlight(s: State): seq<Packet>
    requires FreedCount(s.irq, s.log.done) <= |s.log.hist|
  {
    Lasts(s.log.hist[FreedCount(s.irq, s.log.done)..])
  }

  /** Each dequeued packet is in exactly one place, exactly once: freed, in flight or held. */
  lemma FreedExactlyOnce(cfg: Config, s: State, p: Packet)
    requires Reachable(cfg, s)
    ensures FreedCount(s.irq, s.log.done) <= |s.log.hist|
    ensures Times(s.log.freed, p) + Times(InFlight(s), p) + (if Held(s.out) == Some(p) then 1 else 0)
         == if p < s.log.dequeued then 1 else 0
  {
    ReachableInv(cfg, s);
  }

  // ---------------------------------------------------------------- reset

  /** Equal but for the address and offload words, which no owner reads. */
  predicate SameStatus(a: seq<Desc>, b: seq<Desc>) {
    |a| == |b| && forall i :: 0 <= i < |a| ==> a[i].(addr := 0, opts2 := 0) == b[i].(addr := 0, opts2 := 0)
  }

  /** A reset frees every packet still out, none twice, and leaves the driver as at start-up. */
  lemma ClearRestores(cfg: Config, s: State, p: Packet)
    requires Reachable(cfg, s) && CanClear(s)
    ensures var t := Clear(s);
            && Times(t.log.freed, p) == (if p < s.log.dequeued then 1 else 0)
            && SameStatus(t.ring.desc, Init().ring.desc)
            && t.ring.(desc := Init().ring.desc) == Init().ring
            && t.mem == Init().mem && t.dev == Init().dev && t.out == Ready && t.irq == Idle
  {
    ReachableInv(cfg, s);
    ClearInv(cfg, s);
    var t := Clear(s);
    assert Lasts(t.log.hist[0..]) == [];
    assert Times(t.log.freed, p) + Times([], p) == Times(t.log.freed, p);
  }
}
