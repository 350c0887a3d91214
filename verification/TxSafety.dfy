/**
 What every step of the transmit protocol keeps.

 All positions are counted since the last reset, without wrapping.  The slot of
 descriptor number c is found by going c - done steps round the ring from the dirty
 index.  The invariant orders the counts and says, slot by slot, what the ring and the
 packet array hold.
 */
module TxSafety {
  import opened Arithmetic
  import opened Options
  import opened TxSizes
  import opened TxModel
  import opened TxFrames

  // ---------------------------------------------------------------- positions

  /** How many steps round the ring slot i lies after slot d. */
  function Dist(d: nat, i: nat): int {
    if d <= i then i - d else i - d + RING
  }

  /** Slots other than the k-th after d lie at another distance. */
  lemma OtherSlots(d: nat, k: int)
    requires d < RING && 0 <= k < RING
    ensures 0 <= Skip(d, k) < RING && Dist(d, Skip(d, k)) == k
    ensures forall i :: 0 <= i < RING && i != Skip(d, k) ==> Dist(d, i) != k
  {
  }

  lemma DistFromNext(d: nat)
    requires d < RING
    ensures forall i :: 0 <= i < RING && i != d ==> Dist(Skip(d, 1), i) == Dist(d, i) - 1
    ensures Dist(Skip(d, 1), d) == RING - 1 && Dist(d, d) == 0
  {
  }

  // ---------------------------------------------------------------- pointers

  function Span(w: Width): nat {
    match w
    case Bits16 => 0x1_0000
    case Bits31 => 0x8000_0000
    case Bits32 => 0x1_0000_0000
  }

  function Laps(w: Width, x: int): int {
    match w
    case Bits16 => x / 0x1_0000
    case Bits31 => x / 0x8000_0000
    case Bits32 => x / 0x1_0000_0000
  }

  /** Count c as a pointer of the given width. */
  function Ptr(w: Width, c: nat): (r: nat)
    ensures r < Span(w)
  {
    if c < Span(w) then c else Ptr(w, c - Span(w))
  }

  lemma {:induction false} PtrWrap(w: Width, c: nat)
    ensures Ptr(w, c) == Wrap(w, c)
  {
    if c >= Span(w) {
      PtrWrap(w, c - Span(w));
      WrapLap(w, c - Span(w));
    }
  }

  lemma {:induction false} WrapShift(w: Width, x: int, k: int)
    ensures Wrap(w, x + k * Span(w)) == Wrap(w, x)
    decreases if k < 0 then -k else k
  {
    if k > 0 {
      WrapShift(w, x, k - 1);
      WrapLap(w, x + (k - 1) * Span(w));
      assert x + k * Span(w) == x + (k - 1) * Span(w) + Span(w);
    } else if k < 0 {
      WrapShift(w, x, k + 1);
      WrapLap(w, x + k * Span(w));
      assert x + (k + 1) * Span(w) == x + k * Span(w) + Span(w);
    }
  }

  lemma WrapLap(w: Width, x: int)
    ensures Wrap(w, x + Span(w)) == Wrap(w, x)
  {
    match w
    case Bits16 => OneLap(0x1_0000, x);
    case Bits31 => OneLap(0x8000_0000, x);
    case Bits32 => OneLap(0x1_0000_0000, x);
  }

  lemma WrapSplit(w: Width, x: int)
    ensures x == Wrap(w, x) + Laps(w, x) * Span(w)
    ensures 0 <= Wrap(w, x) < Span(w)
  {
  }

  lemma WrapWord(w: Width, x: int)
    ensures Wrap(w, x % WORD) == Wrap(w, x)
  {
    var k := x / WORD;
    var n := match w case Bits16 => 0x1_0000 case Bits31 => 2 case Bits32 => 1;
    assert WORD == n * Span(w);
    assert x == x % WORD + (k * n) * Span(w);
    WrapShift(w, x % WORD, k * n);
  }

  lemma PtrAdd(w: Width, c: nat, n: nat)
    ensures Ptr(w, c + n) == Wrap(w, Ptr(w, c) + n)
  {
    PtrWrap(w, c);
    PtrWrap(w, c + n);
    WrapSplit(w, c);
    WrapShift(w, Wrap(w, c) + n, Laps(w, c));
  }

  /** What the chip keeps of the driver's 32-bit tail pointer. */
  lemma PtrOfWord(w: Width, c: nat)
    ensures Wrap(w, Ptr(Bits32, c)) == Ptr(w, c)
  {
    PtrWrap(Bits32, c);
    PtrWrap(w, c);
    WrapWord(w, c);
  }

  /** Pointers differ exactly when the counts do. */
  lemma PointersDiffer(w: Width, a: nat, b: nat)
    requires a <= b <= a + RING
    ensures Ptr(w, a) == Ptr(w, b) <==> a == b
  {
    PtrWrap(w, a);
    PtrWrap(w, b);
  }

  /**
   For pointers of any span that is larger than the ring and divides 2 to the 32: the masked
   32-bit difference of two readings is the true number of descriptors completed between them,
   however often the pointers wrapped and whatever the bits above the span.
   */
  lemma NumDoneSpan(span: nat, v: nat, close: nat, closed: nat, seen: nat)
    requires RING < span && WORD % span == 0
    requires v % span == closed % span && close % span == seen % span && seen <= closed <= seen + RING
    ensures (v - close) % WORD % span == closed - seen
  {
    var n, j := WORD / span, (v - close) / WORD;
    var k := LapDifference(span, v, close, closed, seen);
    assert WORD == n * span;
    Regroup(j, n, span);
    DivModUnique(span, k - j * n, closed - seen, (v - close) % WORD);
  }

  lemma Regroup(j: int, n: int, span: int)
    ensures j * (n * span) == j * n * span
  {
  }

  lemma LapDifference(span: nat, v: int, close: int, closed: int, seen: int) returns (k: int)
    requires span > 0 && v % span == closed % span && close % span == seen % span
    ensures v - close == closed - seen + k * span
  {
    k := v / span - close / span - closed / span + seen / span;
    assert k * span == v / span * span - close / span * span - closed / span * span + seen / span * span;
  }

  lemma WrapIsMod(w: Width, x: int)
    ensures Wrap(w, x) == x % Span(w)
  {
  }

  /** The masks of the chips' pointer widths: 16, 31 and 32 bits. */
  lemma NumDoneMasks(cfg: Config, v: nat, close: nat)
    ensures NumDone(cfg, v, close) ==
            match cfg.width
            case Bits16 => (v - close) % 0x1_0000_0000 % 0x1_0000
            case Bits31 => (v - close) % 0x1_0000_0000 % 0x8000_0000
            case Bits32 => (v - close) % 0x1_0000_0000
  {
  }

  /** In particular for each of the chips' pointer widths. */
  lemma NumDoneExact(cfg: Config, v: nat, close: nat, closed: nat, seen: nat)
    requires Wrap(cfg.width, v) == Ptr(cfg.width, closed)
    requires Ptr(cfg.width, close) == Ptr(cfg.width, seen)
    requires seen <= closed <= seen + RING
    ensures NumDone(cfg, v, close) == closed - seen
  {
    var w := cfg.width;
    PtrWrap(w, closed);
    PtrWrap(w, close);
    PtrWrap(w, seen);
    WrapIsMod(w, v);
    WrapIsMod(w, closed);
    WrapIsMod(w, close);
    WrapIsMod(w, seen);
    WrapIsMod(w, (v - close) % WORD);
    SpanDivides(w);
    NumDoneSpan(Span(w), v, close, closed, seen);
  }

  lemma SpanDivides(w: Width)
    ensures RING < Span(w) && WORD % Span(w) == 0
  {
  }

  // ---------------------------------------------------------------- progress counts

  /** Descriptors given back through txNumFreeDesc. */
  function ReleasedCount(irq: IrqPc, done: nat): nat {
    if irq.Busy? && irq.at.Released? then done + 1 else done
  }

  /** Slots overwritten with NULL. */
  function ClearedCount(irq: IrqPc, done: nat): nat {
    if irq.Busy? && !irq.at.Scan? && !irq.at.Took? then done + 1 else done
  }

  /** Descriptors whose packet, if they end one, has been freed. */
  function FreedCount(irq: IrqPc, done: nat): nat {
    if irq.Busy? && (irq.at.Freed? || irq.at.Released?) then done + 1 else done
  }

  /** Completions the handler has read from the close pointer. */
  function SeenCount(irq: IrqPc, done: nat): nat {
    done + if irq.Busy? then irq.n else 0
  }

  /** Descriptors of packets that are completely written and owned by the device. */
  function SettledCount(out: OutPc, claimed: nat): int {
    if out.Filling? then claimed - |out.q.segs|
    else if out.Owning? then claimed - |out.q.segs|
    else claimed
  }

  /** Descriptors written. */
  function DescCount(out: OutPc, claimed: nat): int {
    if out.Filling? then claimed - |out.q.segs| + out.i else claimed
  }

  /** Packet-array slots written. */
  function SlotCount(out: OutPc, claimed: nat): int {
    DescCount(out, claimed) + if out.Filling? && out.stored then 1 else 0
  }

  // ---------------------------------------------------------------- invariant

  ghost predicate Counts(out: OutPc, irq: IrqPc, free: int, log: History) {
    && ClearedCount(irq, log.done) <= SeenCount(irq, log.done) <= log.closed <= log.rung
    && log.rung <= SettledCount(out, |log.hist|) <= |log.hist|
    && free == RING - (|log.hist| - ReleasedCount(irq, log.done))
    && free >= 4
    && (out.Holding? || out.Mapped? ==> free > MAX_SEGS + 3)
  }

  /** The ring indices, measured from the dirty index. */
  ghost predicate Indices(ring: Ring, dev: Device, log: History) {
    && ring.dirty < RING
    && ring.next == Skip(ring.dirty, |log.hist| - log.done)
    && dev.idx == Skip(ring.dirty, log.closed - log.done)
  }

  /** The free-running pointers on both sides, as counts. */
  ghost predicate Pointers(w: Width, ring: Ring, dev: Device, irq: IrqPc, log: History) {
    && ring.dirty == log.done % RING
    && ring.tail == Ptr(Bits32, |log.hist|)
    && Ptr(w, ring.close) == Ptr(w, SeenCount(irq, log.done))
    && dev.tail == Ptr(w, log.rung)
    && dev.close == Ptr(w, log.closed)
  }

  function RecAt(q: Queued, i: nat): Rec
    requires i < |q.segs|
  {
    Rec(q.pkt, q.opts, q.segs[i], i == 0, i == |q.segs| - 1)
  }

  /** The packet being written is the last one claimed. */
  ghost predicate LastClaim(q: Queued, hist: seq<Rec>) {
    && 1 <= |q.segs| <= |hist|
    && forall c :: |hist| - |q.segs| <= c < |hist| ==> hist[c] == RecAt(q, c - (|hist| - |q.segs|))
  }

  ghost predicate OutOk(out: OutPc, dirty: nat, done: nat, hist: seq<Rec>) {
    && (out.Mapped? ==> 1 <= |out.segs| <= MAX_SEGS)
    && (out.Filling? ==>
          && LastClaim(out.q, hist)
          && out.i < |out.q.segs|
          && out.first == Skip(dirty, |hist| - |out.q.segs| - done)
          && out.index == Skip(dirty, |hist| - |out.q.segs| + out.i - done))
    && (out.Owning? ==>
          && LastClaim(out.q, hist)
          && out.first == Skip(dirty, |hist| - |out.q.segs| - done))
  }

  /** What the slot of a descriptor holds while its packet is in flight. */
  function Slot(r: Rec): Option<Packet> {
    if r.last then Some(r.pkt) else None
  }

  ghost predicate IrqOk(irq: IrqPc, done: nat, hist: seq<Rec>) {
    irq.Busy? && irq.at != Scan ==>
      && irq.n > 0 && done < |hist| && irq.m == Slot(hist[done])
      && (irq.at == Unmapped || irq.at == Freed ==> irq.m.Some?)
  }

  /** The descriptor a record is written as. */
  function Encode(r: Rec, slot: nat, own: bool): Desc {
    Desc(r.seg.location, r.opts.opts2, r.seg.length, r.opts.cmd, own, r.first, r.last, slot == RING - 1)
  }

  /** Descriptors from lo up to hi are written; the first one of a packet at or above
      `settled` is not owned yet.  Only the last slot carries the ring-end mark. */
  ghost predicate Descs(desc: seq<Desc>, dirty: nat, done: nat, hist: seq<Rec>, lo: nat, hi: int, settled: int) {
    && |desc| == RING && hi <= |hist|
    && (forall i :: 0 <= i < RING ==> (desc[i].ringEnd <==> i == RING - 1))
    && (forall i :: 0 <= i < RING ==>
          var c := done + Dist(dirty, i);
          lo <= c < hi ==>
            desc[i] == Encode(hist[c], i, c < settled || !hist[c].first))
  }

  /** Slots from lo up to hi hold their packets, all other slots are empty. */
  ghost predicate Slots(mbuf: seq<Option<Packet>>, dirty: nat, done: nat, hist: seq<Rec>, lo: nat, hi: int) {
    && |mbuf| == RING && hi <= |hist|
    && (forall i :: 0 <= i < RING ==>
          var c := done + Dist(dirty, i);
          mbuf[i] == if lo <= c < hi then Slot(hist[c]) else None)
  }

  ghost predicate Laid(queue: seq<Queued>, hist: seq<Rec>) {
    WellFormed(queue) && hist == Flat(queue)
  }

  /** The doorbell rings on packet boundaries. */
  ghost predicate Announced(queue: seq<Queued>, announced: nat, rung: nat) {
    announced <= |queue| && rung == |Flat(queue[..announced])|
  }

  /** The device has sent exactly what the closed descriptors spell. */
  ghost predicate Sent(dev: Device, hist: seq<Rec>, closed: nat) {
    closed <= |hist| && Parsed(dev.wire, dev.acc) == Parse(hist[..closed]) && !dev.fault
  }

  /** The packet in the output thread's hands. */
  function Held(out: OutPc): Option<Packet> {
    if out.Holding? then Some(out.pkt)
    else if out.Mapped? then Some(out.pkt)
    else None
  }

  /** How often packet p occurs. */
  function Times(s: seq<Packet>, p: Packet): nat {
    multiset(s)[p]
  }

  /** Every dequeued packet is freed, in flight or held, and only one of these, once. */
  ghost predicate Accounted(freed: seq<Packet>, inFlight: seq<Packet>, held: Option<Packet>, dequeued: nat) {
    forall p: Packet :: Times(freed, p) + Times(inFlight, p) + (if held == Some(p) then 1 else 0)
                     == if p < dequeued then 1 else 0
  }

  ghost predicate Conserved(held: Option<Packet>, log: History, freed: nat) {
    && freed <= |log.hist|
    && log.completed == Lasts(log.hist[..freed])
    && Accounted(log.freed, Lasts(log.hist[freed..]), held, log.dequeued)
  }

  ghost predicate MemShape(mem: MemRing) {
    |mem.io| == MEMS && mem.use < MEMS && mem.free < MEMS
  }

  /** Who owns which descriptor and which slot. */
  ghost predicate Control(s: State) {
    && MemShape(s.mem)
    && Counts(s.out, s.irq, s.ring.free, s.log)
    && Indices(s.ring, s.dev, s.log)
    && OutOk(s.out, s.ring.dirty, s.log.done, s.log.hist)
    && IrqOk(s.irq, s.log.done, s.log.hist)
    && Descs(s.ring.desc, s.ring.dirty, s.log.done, s.log.hist, s.log.closed,
             DescCount(s.out, |s.log.hist|), SettledCount(s.out, |s.log.hist|))
    && Slots(s.ring.mbuf, s.ring.dirty, s.log.done, s.log.hist,
             ClearedCount(s.irq, s.log.done), SlotCount(s.out, |s.log.hist|))
  }

  /** What the descriptors mean: packets queued, sent and freed. */
  ghost predicate Content(s: State) {
    && Laid(s.log.queue, s.log.hist)
    && Announced(s.log.queue, s.log.announced, s.log.rung)
    && Sent(s.dev, s.log.hist, s.log.closed)
    && Conserved(Held(s.out), s.log, FreedCount(s.irq, s.log.done))
  }

  ghost predicate Inv(cfg: Config, s: State) {
    Control(s) && Pointers(cfg.width, s.ring, s.dev, s.irq, s.log) && Content(s)
  }

  // ---------------------------------------------------------------- one slot at a time

  lemma DescsPut(desc: seq<Desc>, dirty: nat, done: nat, hist: seq<Rec>, lo: nat, k: nat, settled: int)
    requires Descs(desc, dirty, done, hist, lo, k, settled)
    requires dirty < RING && done <= lo <= k < |hist| && k < done + RING
    ensures var i := Skip(dirty, k - done);
            && 0 <= i < RING
            && Descs(desc[i := Encode(hist[k], i, k < settled || !hist[k].first)],
                     dirty, done, hist, lo, k + 1, settled)
  {
    OtherSlots(dirty, k - done);
  }

  lemma DescsOwn(desc: seq<Desc>, dirty: nat, done: nat, hist: seq<Rec>, lo: nat, k: nat)
    requires Descs(desc, dirty, done, hist, lo, |hist|, k)
    requires dirty < RING && done <= lo <= k < |hist| < done + RING
    requires hist[k].first && forall c :: k < c < |hist| ==> !hist[c].first
    ensures var i := Skip(dirty, k - done);
            && 0 <= i < RING
            && Descs(desc[i := desc[i].(own := true)], dirty, done, hist, lo, |hist|, |hist|)
  {
    OtherSlots(dirty, k - done);
  }

  lemma DescsAdvance(desc: seq<Desc>, dirty: nat, done: nat, hist: seq<Rec>, lo: nat, hi: int, settled: int)
    requires Descs(desc, dirty, done, hist, lo, hi, settled)
    requires dirty < RING && done < lo && hi <= done + RING
    ensures Descs(desc, Skip(dirty, 1), done + 1, hist, lo, hi, settled)
  {
    DistFromNext(dirty);
  }

  lemma OutAdvance(out: OutPc, dirty: nat, done: nat, hist: seq<Rec>)
    requires OutOk(out, dirty, done, hist) && dirty < RING
    requires done < SettledCount(out, |hist|) && |hist| <= done + RING
    ensures OutOk(out, Skip(dirty, 1), done + 1, hist)
  {
  }

  lemma SlotsPut(mbuf: seq<Option<Packet>>, dirty: nat, done: nat, hist: seq<Rec>, lo: nat, k: nat)
    requires Slots(mbuf, dirty, done, hist, lo, k)
    requires dirty < RING && done <= lo <= k < |hist| && k < done + RING
    ensures var i := Skip(dirty, k - done);
            0 <= i < RING && Slots(mbuf[i := Slot(hist[k])], dirty, done, hist, lo, k + 1)
  {
    OtherSlots(dirty, k - done);
  }

  lemma SlotsAdvance(mbuf: seq<Option<Packet>>, dirty: nat, done: nat, hist: seq<Rec>, hi: int)
    requires Slots(mbuf, dirty, done, hist, done + 1, hi)
    requires dirty < RING && hi <= done + RING
    ensures Slots(mbuf, Skip(dirty, 1), done + 1, hist, done + 1, hi)
  {
    DistFromNext(dirty);
  }
}
