/**
 The transmit ring as a two-thread protocol with the NIC as third party.

 The output thread (`outputStart`), the completion handler (`txInterrupt`) and the
 device each advance by single accesses to shared memory; any interleaving of their
 steps is a run.
 */
module TxModel {
  import opened Options
  import opened TxSizes

  const WORD: nat := 0x1_0000_0000       // 32-bit pointers wrap here

  /** A packet is named by its position in the order of dequeueing. */
  type Packet = nat

  datatype Segment = Segment(location: nat, length: nat)

  /** Offload request: the command bits of the first status word and the second one. */
  datatype Opts = Opts(cmd: nat, opts2: nat)

  /** A descriptor; `length` to `ringEnd` are the first status word. */
  datatype Desc = Desc(addr: nat, opts2: nat,
                       length: nat, cmd: nat, own: bool, first: bool, last: bool, ringEnd: bool)

  /** What one claimed descriptor is for. */
  datatype Rec = Rec(pkt: Packet, opts: Opts, seg: Segment, first: bool, last: bool)

  datatype Queued = Queued(pkt: Packet, opts: Opts, segs: seq<Segment>)

  /** What the device puts on the wire for one packet. */
  datatype Frame = Frame(opts: Opts, segs: seq<Segment>)

  /** A transmit IOMemoryDescriptor: its tag and the part of txMemRange it refers to. */
  datatype Mem = Inactive | Active(pkt: Packet, start: nat, count: nat)

  /** Entries of txMemRange written by txMapPacket, and the grab they were written for; none
      if the mapping failed afterwards. */
  datatype Write = Write(start: nat, count: nat, grab: Option<nat>)

  /** Pointer width of the chip, by its TxNoClose version. */
  datatype Width = Bits16 | Bits31 | Bits32

  /** `vtd` is useAppleVTD. */
  datatype Config = Config(width: Width, vtd: bool)

  /** A free-running pointer as the chip sees it. */
  function Wrap(width: Width, x: int): nat {
    match width
    case Bits16 => x % 0x1_0000
    case Bits31 => x % 0x8000_0000
    case Bits32 => x % 0x1_0000_0000
  }

  /** Advance a ring index by n slots, as adding and masking with kTxDescMask does. */
  function Skip(i: int, n: int): int {
    if i + n < RING then i + n else i + n - RING
  }

  lemma SkipIsMask(i: nat, n: nat)
    requires i < RING && n <= RING
    ensures Skip(i, n) == (i + n) % RING
  {
  }

  /** txDescArray, txMbufArray and the ring variables. */
  datatype Ring = Ring(desc: seq<Desc>, mbuf: seq<Option<Packet>>,
                       next: nat, dirty: nat, tail: nat, close: nat, free: int)

  /** The memory-descriptor ring of rtlTxMapInfo. */
  datatype MemRing = MemRing(use: nat, free: nat, numFree: int, io: seq<Mem>)

  datatype OutPc =
    | Ready                                               // at the loop head
    | Holding(pkt: Packet, opts: Opts)                    // packet dequeued
    | Mapped(pkt: Packet, opts: Opts, segs: seq<Segment>) // segments known
    | Filling(q: Queued, first: nat, index: nat, i: nat, stored: bool)
    | Owning(q: Queued, first: nat)                       // all but the first own bit written

  /** Where the handler is with the slot it is working on. */
  datatype Phase =
    | Scan       // slot not touched yet
    | Took       // slot read
    | Cleared    // slot overwritten with NULL
    | Unmapped   // txUnmapPacket done
    | Freed      // freePacket done
    | Released   // txNumFreeDesc incremented

  /** `n` descriptors are left to release; `m` is what the slot held. */
  datatype IrqPc = Idle | Busy(n: nat, m: Option<Packet>, at: Phase)

  /** The device: its pointers, the frame being gathered and everything sent so far. */
  datatype Device = Device(tail: nat, close: nat, idx: nat,
                           acc: seq<Segment>, wire: seq<Frame>, fault: bool)

  /** History since the last reset, except `dequeued` and `freed`, which never restart. */
  datatype History = History(
    dequeued: nat,            // packets taken from the stack
    freed: seq<Packet>,       // packets given back, in order
    completed: seq<Packet>,   // those of them given back by the completion handler
    queue: seq<Queued>,       // packets that claimed descriptors
    hist: seq<Rec>,           // the descriptors they claimed
    rung: nat,                // descriptors announced to the device
    announced: nat,           // packets announced to the device
    closed: nat,              // descriptors the device has closed
    done: nat,                // descriptors the handler has finished with
    maps: seq<Mem>,           // memory descriptors grabbed by txMapPacket
    bases: seq<nat>,          // descriptors claimed before each of these grabs
    writes: seq<Write>,       // entries of txMemRange written, in order
    unmapped: nat)            // calls of txUnmapPacket

  datatype State = State(ring: Ring, mem: MemRing, out: OutPc, irq: IrqPc, dev: Device, log: History)

  function EmptyDesc(idx: nat): Desc {
    Desc(0, 0, 0, 0, false, false, false, idx == RING - 1)
  }

  function EmptyRing(desc: seq<Desc>): Ring {
    Ring(desc, seq(RING, i => None), 0, 0, 0, 0, RING)
  }

  function EmptyMem(): MemRing {
    MemRing(0, 0, MEMS, seq(MEMS, i => Inactive))
  }

  /** setupTxResources and setupTxMap. */
  function Init(): State {
    State(EmptyRing(seq(RING, i requires 0 <= i < RING => EmptyDesc(i))), EmptyMem(), Ready, Idle,
          Device(0, 0, 0, [], [], false),
          History(0, [], [], [], [], 0, 0, 0, 0, [], [], [], 0))
  }

  // ---------------------------------------------------------------- output thread

  predicate CanDequeue(s: State) {
    s.out.Ready? && s.ring.free > MAX_SEGS + 3
  }

  function Dequeue(s: State, opts: Opts): State {
    s.(out := Holding(s.log.dequeued, opts),
       log := s.log.(dequeued := s.log.dequeued + 1))
  }

  /** A packet that needs too many segments, or whose TSO request cannot be read, is dropped. */
  function Drop(s: State): State
    requires s.out.Holding?
  {
    s.(out := Ready, log := s.log.(freed := s.log.freed + [s.out.pkt]))
  }

  predicate CanMap(s: State, segs: seq<Segment>) {
    s.out.Holding? && 1 <= |segs| <= MAX_SEGS && s.mem.use < |s.mem.io|
  }

  /**
   txMapPacket's effect on the memory-descriptor ring.  With one or no memory descriptor
   left it returns the segment count without touching the ring.
   */
  function Grab(mem: MemRing, pkt: Packet, start: nat, count: nat): MemRing
    requires mem.use < |mem.io|
  {
    if mem.numFree > 1 then
      MemRing((mem.use + 1) % MEMS, mem.free, mem.numFree - 1,
              mem.io[mem.use := Active(pkt, start, count)])
    else mem
  }

  /** Segments come from txMapPacket or from the mbuf cursor. */
  function Map(cfg: Config, s: State, segs: seq<Segment>): State
    requires CanMap(s, segs)
  {
    var pc := Mapped(s.out.pkt, s.out.opts, segs);
    if cfg.vtd && s.mem.numFree > 1 then
      s.(out := pc,
         mem := Grab(s.mem, s.out.pkt, s.ring.next, |segs|),
         log := s.log.(maps := s.log.maps + [Active(s.out.pkt, s.ring.next, |segs|)],
                       bases := s.log.bases + [|s.log.hist|],
                       writes := s.log.writes + [Write(s.ring.next, |segs|, Some(|s.log.maps|))]))
    else s.(out := pc)
  }

  /** txMapPacket gets as far as taking a memory descriptor. */
  predicate CanAttempt(cfg: Config, s: State) {
    cfg.vtd && s.out.Holding? && s.mem.numFree > 1 && s.mem.use < |s.mem.io|
  }

  /**
   A mapping of n segments that fails after their pages were written to txMemRange.  Counter
   and index are restored and the packet is dropped, but the entries stay written; so does the
   tag of the memory descriptor if it was a device address that was missing.
   */
  function Fail(s: State, n: nat, tagged: bool): State
    requires s.out.Holding? && s.mem.use < |s.mem.io|
  {
    var t := Drop(s);
    t.(mem := if tagged then s.mem.(io := s.mem.io[s.mem.use := Active(s.out.pkt, s.ring.next, n)]) else s.mem,
       log := t.log.(writes := s.log.writes + [Write(s.ring.next, n, None)]))
  }

  /** A packet of empty buffers: it needs no segment, but takes a memory descriptor; the
      segment count of zero then has it dropped. */
  function Lose(s: State): State
    requires s.out.Holding? && s.mem.use < |s.mem.io|
  {
    var t := Drop(s);
    t.(mem := Grab(s.mem, s.out.pkt, s.ring.next, 0),
       log := t.log.(maps := s.log.maps + [Active(s.out.pkt, s.ring.next, 0)],
                     bases := s.log.bases + [|s.log.hist|]))
  }

  function Recs(q: Queued): (r: seq<Rec>)
    ensures |r| == |q.segs|
  {
    seq(|q.segs|, i requires 0 <= i < |q.segs| =>
      Rec(q.pkt, q.opts, q.segs[i], i == 0, i == |q.segs| - 1))
  }

  function Claim(s: State): State
    requires s.out.Mapped?
  {
    var q := Queued(s.out.pkt, s.out.opts, s.out.segs);
    var n := |s.out.segs|;
    s.(ring := s.ring.(free := s.ring.free - n,
                       next := Skip(s.ring.next, n),
                       tail := (s.ring.tail + n) % WORD),
       out := Filling(q, s.ring.next, s.ring.next, 0, false),
       log := s.log.(queue := s.log.queue + [q], hist := s.log.hist + Recs(q)))
  }

  predicate CanStore(s: State) {
    && s.out.Filling? && s.out.i < |s.out.q.segs|
    && s.out.index < |s.ring.mbuf| && s.out.index < |s.ring.desc|
  }

  function StoreMbuf(s: State): State
    requires CanStore(s)
  {
    var m := if s.out.i == |s.out.q.segs| - 1 then Some(s.out.q.pkt) else None;
    s.(ring := s.ring.(mbuf := s.ring.mbuf[s.out.index := m]),
       out := Filling(s.out.q, s.out.first, s.out.index, s.out.i, true))
  }

  /** The descriptor written for segment i; the first one is not owned yet. */
  function NewDesc(q: Queued, i: nat, index: nat): Desc
    requires i < |q.segs|
  {
    Desc(q.segs[i].location, q.opts.opts2, q.segs[i].length, q.opts.cmd,
         i != 0, i == 0, i == |q.segs| - 1, index == RING - 1)
  }

  function StoreDesc(s: State): State
    requires CanStore(s)
  {
    var q, i, index := s.out.q, s.out.i, s.out.index;
    s.(ring := s.ring.(desc := s.ring.desc[index := NewDesc(q, i, index)]),
       out := if i + 1 == |q.segs| then Owning(q, s.out.first)
              else Filling(q, s.out.first, Skip(index, 1), i + 1, false))
  }

  predicate CanGiveFirst(s: State) {
    s.out.Owning? && s.out.first < |s.ring.desc|
  }

  function GiveFirst(s: State): State
    requires CanGiveFirst(s)
  {
    var d := s.ring.desc[s.out.first].(own := true);
    s.(ring := s.ring.(desc := s.ring.desc[s.out.first := d]), out := Ready)
  }

  function Doorbell(cfg: Config, s: State): State {
    s.(dev := s.dev.(tail := Wrap(cfg.width, s.ring.tail)),
       log := s.log.(rung := |s.log.hist|, announced := |s.log.queue|))
  }

  // ---------------------------------------------------------------- device

  predicate CanFetch(s: State) {
    s.dev.close != s.dev.tail && !s.dev.fault
  }

  /** Consume one descriptor.  A descriptor outside the ring or not owned is a fault. */
  function Consume(cfg: Config, dev: Device, desc: seq<Desc>): Device {
    if dev.idx >= |desc| || !desc[dev.idx].own then dev.(fault := true)
    else
      var d := desc[dev.idx];
      var seg := Segment(d.addr, d.length);
      var acc := if d.first then [seg] else dev.acc + [seg];
      Device(dev.tail, Wrap(cfg.width, dev.close + 1), if d.ringEnd then 0 else dev.idx + 1,
             if d.last then [] else acc,
             if d.last then dev.wire + [Frame(Opts(d.cmd, d.opts2), acc)] else dev.wire,
             false)
  }

  function Fetch(cfg: Config, s: State): State {
    s.(dev := Consume(cfg, s.dev, s.ring.desc), log := s.log.(closed := s.log.closed + 1))
  }

  // ---------------------------------------------------------------- completion handler

  /** The register value is only meaningful modulo the chip's pointer width. */
  predicate CanReadClose(cfg: Config, s: State, v: nat) {
    s.irq.Idle? && v < WORD && Wrap(cfg.width, v) == s.dev.close
  }

  function NumDone(cfg: Config, v: nat, close: nat): nat {
    Wrap(cfg.width, (v - close) % WORD)
  }

  function ReadClose(cfg: Config, s: State, v: nat): State {
    s.(irq := Busy(NumDone(cfg, v, s.ring.close), None, Scan), ring := s.ring.(close := v))
  }

  predicate At(s: State, at: Phase) {
    s.irq.Busy? && s.irq.n > 0 && s.irq.at == at
  }

  predicate CanTake(s: State) {
    At(s, Scan) && s.ring.dirty < |s.ring.mbuf|
  }

  function Take(s: State): State
    requires CanTake(s)
  {
    s.(irq := Busy(s.irq.n, s.ring.mbuf[s.ring.dirty], Took))
  }

  predicate CanClearSlot(s: State) {
    At(s, Took) && s.ring.dirty < |s.ring.mbuf|
  }

  function ClearSlot(s: State): State
    requires CanClearSlot(s)
  {
    s.(irq := s.irq.(at := Cleared), ring := s.ring.(mbuf := s.ring.mbuf[s.ring.dirty := None]))
  }

  predicate CanUnmap(cfg: Config, s: State) {
    cfg.vtd && At(s, Cleared) && s.irq.m.Some? && s.mem.free < |s.mem.io|
  }

  /** txUnmapPacket. */
  function Ungrab(mem: MemRing): MemRing
    requires mem.free < |mem.io|
  {
    MemRing(mem.use, (mem.free + 1) % MEMS, mem.numFree + 1, mem.io[mem.free := Inactive])
  }

  function Unmap(s: State): State
    requires s.irq.Busy? && s.mem.free < |s.mem.io|
  {
    s.(irq := s.irq.(at := Unmapped), mem := Ungrab(s.mem), log := s.log.(unmapped := s.log.unmapped + 1))
  }

  predicate CanFree(cfg: Config, s: State) {
    At(s, if cfg.vtd then Unmapped else Cleared) && s.irq.m.Some?
  }

  function Free(s: State): State
    requires s.irq.Busy? && s.irq.m.Some?
  {
    s.(irq := s.irq.(at := Freed),
       log := s.log.(freed := s.log.freed + [s.irq.m.value],
                     completed := s.log.completed + [s.irq.m.value]))
  }

  predicate CanRelease(s: State) {
    At(s, Freed) || (At(s, Cleared) && s.irq.m.None?)
  }

  function Release(s: State): State
    requires s.irq.Busy?
  {
    s.(irq := s.irq.(at := Released), ring := s.ring.(free := s.ring.free + 1))
  }

  function Advance(s: State): State
    requires At(s, Released)
  {
    s.(irq := Busy(s.irq.n - 1, None, Scan),
       ring := s.ring.(dirty := Skip(s.ring.dirty, 1)),
       log := s.log.(done := s.log.done + 1))
  }

  predicate CanFinish(s: State) {
    s.irq.Busy? && s.irq.n == 0
  }

  // ---------------------------------------------------------------- reset

  /** Both threads are stopped and the chip has been reset. */
  predicate CanClear(s: State) {
    s.out.Ready? && s.irq.Idle?
  }

  /** The packets found in the slots, in slot order. */
  function Somes(slots: seq<Option<Packet>>): seq<Packet> {
    if slots == [] then []
    else
      var x := slots[|slots| - 1];
      Somes(slots[..|slots| - 1]) + if x.Some? then [x.value] else []
  }

  /** clearRxTxRings rewrites the first status word only. */
  function ClearedDescs(desc: seq<Desc>): seq<Desc> {
    seq(|desc|, i requires 0 <= i < |desc| =>
      EmptyDesc(i).(addr := desc[i].addr, opts2 := desc[i].opts2))
  }

  /** The transmit half of clearRxTxRings. */
  function Clear(s: State): State {
    State(EmptyRing(ClearedDescs(s.ring.desc)), EmptyMem(), Ready, Idle,
          Device(0, 0, 0, [], [], false),
          History(s.log.dequeued, s.log.freed + Somes(s.ring.mbuf), [], [], [], 0, 0, 0, 0, [], [], [], 0))
  }

  // ---------------------------------------------------------------- runs

  datatype Step =
    | DequeueStep(opts: Opts) | DropStep | MapStep(segs: seq<Segment>) | FailStep(n: nat, tagged: bool) | LoseStep
    | ClaimStep
    | StoreMbufStep | StoreDescStep | GiveFirstStep | DoorbellStep
    | FetchStep
    | ReadCloseStep(v: nat) | TakeStep | ClearSlotStep | UnmapStep | FreeStep
    | ReleaseStep | AdvanceStep | FinishStep
    | ClearStep

  predicate Can(cfg: Config, s: State, step: Step) {
    match step
    case DequeueStep(_) => CanDequeue(s)
    case DropStep => s.out.Holding?
    case MapStep(segs) => CanMap(s, segs)
    case FailStep(n, tagged) => CanAttempt(cfg, s) && n <= MAX_SEGS && (tagged ==> n > 0)
    case LoseStep => CanAttempt(cfg, s)
    case ClaimStep => s.out.Mapped?
    case StoreMbufStep => CanStore(s) && !s.out.stored
    case StoreDescStep => CanStore(s) && s.out.stored
    case GiveFirstStep => CanGiveFirst(s)
    case DoorbellStep => s.out.Ready?
    case FetchStep => CanFetch(s)
    case ReadCloseStep(v) => CanReadClose(cfg, s, v)
    case TakeStep => CanTake(s)
    case ClearSlotStep => CanClearSlot(s)
    case UnmapStep => CanUnmap(cfg, s)
    case FreeStep => CanFree(cfg, s)
    case ReleaseStep => CanRelease(s)
    case AdvanceStep => At(s, Released)
    case FinishStep => CanFinish(s)
    case ClearStep => CanClear(s)
  }

  function Do(cfg: Config, s: State, step: Step): State
    requires Can(cfg, s, step)
  {
    match step
    case DequeueStep(opts) => Dequeue(s, opts)
    case DropStep => Drop(s)
    case MapStep(segs) => Map(cfg, s, segs)
    case FailStep(n, tagged) => Fail(s, n, tagged)
    case LoseStep => Lose(s)
    case ClaimStep => Claim(s)
    case StoreMbufStep => StoreMbuf(s)
    case StoreDescStep => StoreDesc(s)
    case GiveFirstStep => GiveFirst(s)
    case DoorbellStep => Doorbell(cfg, s)
    case FetchStep => Fetch(cfg, s)
    case ReadCloseStep(v) => ReadClose(cfg, s, v)
    case TakeStep => Take(s)
    case ClearSlotStep => ClearSlot(s)
    case UnmapStep => Unmap(s)
    case FreeStep => Free(s)
    case ReleaseStep => Release(s)
    case AdvanceStep => Advance(s)
    case FinishStep => s.(irq := Idle)
    case ClearStep => Clear(s)
  }

  /** The state after a run of steps from `s`, if every step was enabled. */
  function Run(cfg: Config, s: State, steps: seq<Step>): Option<State> {
    if steps == [] then Some(s)
    else
      match Run(cfg, s, steps[..|steps| - 1])
      case None => None
      case Some(t) =>
        var step := steps[|steps| - 1];
        if Can(cfg, t, step) then Some(Do(cfg, t, step)) else None
  }

  ghost predicate Reachable(cfg: Config, s: State) {
    exists steps :: Run(cfg, Init(), steps) == Some(s)
  }
}
