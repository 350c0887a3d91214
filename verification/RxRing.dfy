/**
 The receive ring with an address mapper.  Buffers are unmapped, replaced in their address
 ranges, mapped again and armed sixteen at a time; a zero phyAddr marks a slot whose mbuf was
 replaced since it was last mapped.  The chip sees addresses only: a write goes to whatever is
 mapped at the address in the descriptor.  The chip and the driver interleave freely: every step
 below is one access to something the chip can see, or work on state it cannot.
 */
module RxRing {
  import opened Options

  const RING := 1024       // kNumRxDesc
  const BATCH := 16        // kRxMemBatchSize
  const BATCHES := 64      // kNumRxMemDesc

  /** An address range mapped for the device. */
  datatype Mapping = Mapping(addr: nat, mbuf: nat)

  /** One position of the ring: the descriptor (own, addr), what the chip wrote to (filled),
      rxBufArray[i].phyAddr, rxMemRange[i] and the range's current mapping.  `bare` is history:
      the slot was last armed by a clear that had no mapping for it. */
  datatype Slot = Slot(own: bool, addr: nat, filled: Option<nat>, phy: nat, range: nat,
                       mapped: Option<Mapping>, bare: bool)

  datatype Phase =
    | Idle
    | Looping(numMap: nat)                          // in the loop of rxInterruptVTD
    | Between(left: nat)                            // rxMapBuffers, at the loop over batches
    | Torn(left: nat)                               // batch unmapped
    | Arming(left: nat, todo: nat, addrSet: bool)   // batch mapped, descriptors being written

  /** The fragments the chip receives are numbered as they come.  `held` says which one was
      written last into each mbuf, `got` how many there were, `read` what the driver found at
      each pass since the last clear, and `base` how many had come before that clear. */
  datatype Data = Data(held: map<nat, nat>, got: nat, base: nat, read: seq<Option<nat>>)

  /** `mbufs` is rxBufArray[].mbuf, `dev` the chip's position.  `delivered` and `made` are
      history: packets passed up, and how many mbufs ever entered the ring.  Counting from the
      next descriptor to arm, `pend` are processed and not armed again, `fin` are finished;
      `lost` counts batches that were due but not mapped because the mapper failed. */
  datatype Ring = Ring(slots: seq<Slot>, mbufs: seq<nat>, delivered: seq<nat>, made: nat,
                       arm: nat, pend: nat, fin: nat, lost: nat,
                       next: nat, mapNext: nat, dev: nat, phase: Phase, data: Data)

  /** What becomes of a finished descriptor's buffer: it stays (error, no packet, or its bytes
      were copied), or a new one takes its place. */
  datatype Outcome = Kept | Replaced

  function Inc(i: nat): nat {
    if i + 1 == RING then 0 else i + 1
  }

  function Fwd(i: nat, n: int): int {
    if i + n < RING then i + n else i + n - RING
  }

  // ---------------------------------------------------------------- steps

  /** The device address slot i is mapped at. */
  function Live(slots: seq<Slot>, i: int): Option<nat>
    requires 0 <= i < |slots|
  {
    if slots[i].mapped.Some? then Some(slots[i].mapped.value.addr) else None
  }

  /** The mapper: what the chip gets at when it writes to an address, whichever slot of the ring
      that address is mapped for. */
  ghost function Lookup(slots: seq<Slot>, addr: nat): Option<nat> {
    if exists i :: 0 <= i < |slots| && Live(slots, i) == Some(addr) then
      var i :| 0 <= i < |slots| && Live(slots, i) == Some(addr);
      Some(slots[i].mapped.value.mbuf)
    else None
  }

  /** Where the chip's write for the descriptor in slot i goes: the chip has but its address. */
  ghost function Target(slots: seq<Slot>, i: nat): Option<nat>
    requires i < |slots|
  {
    Lookup(slots, slots[i].addr)
  }

  ghost function Put(d: Data, target: Option<nat>): Data {
    d.(held := if target.Some? then d.held[target.value := d.got] else d.held, got := d.got + 1)
  }

  /** The chip writes a fragment and gives the descriptor back. */
  ghost function Finish(r: Ring): Ring
    requires r.dev < |r.slots|
  {
    var t := Target(r.slots, r.dev);
    r.(slots := r.slots[r.dev := r.slots[r.dev].(own := false, filled := t)],
       dev := Inc(r.dev), fin := r.fin + 1, data := Put(r.data, t))
  }

  function Found(d: Data, mbuf: nat): Option<nat> {
    if mbuf in d.held then Some(d.held[mbuf]) else None
  }

  /** One pass of the loop in rxInterruptVTD. */
  function Process(r: Ring, o: Outcome): Ring
    requires r.phase.Looping? && r.next < |r.slots| && r.next < |r.mbufs|
  {
    var n := r.phase.numMap + if r.next % BATCH == BATCH - 1 then 1 else 0;
    var q := r.(next := Inc(r.next), pend := r.pend + 1, phase := Looping(n),
                data := r.data.(read := r.data.read + [Found(r.data, r.mbufs[r.next])]));
    if o == Kept then q
    else q.(delivered := r.delivered + [r.mbufs[r.next]],
            mbufs := r.mbufs[r.next := r.made], made := r.made + 1,
            slots := r.slots[r.next := r.slots[r.next].(phy := 0)])
  }

  /** Map the slot at `addr`, after updating its range if it is dirty. */
  function Remap(s: Slot, mbuf: nat, addr: nat): Slot {
    var range := if s.phy == 0 then mbuf else s.range;
    s.(range := range, mapped := Some(Mapping(addr, range)))
  }

  /** Tear down the old mapping of a batch. */
  function Unmap(r: Ring): Ring
    requires r.phase.Between? && |r.slots| == RING
  {
    r.(slots := seq(RING, i requires 0 <= i < RING =>
                      if r.mapNext <= i < r.mapNext + BATCH then r.slots[i].(mapped := None) else r.slots[i]),
       phase := Torn(r.phase.left))
  }

  /** Update the ranges of a batch and map it: the mapper picks the addresses. */
  function Prepare(r: Ring, addrs: seq<nat>): Ring
    requires r.phase.Torn? && |r.slots| == |r.mbufs| == RING && |addrs| == BATCH
  {
    r.(slots := seq(RING, i requires 0 <= i < RING =>
                      if r.mapNext <= i < r.mapNext + BATCH
                      then Remap(r.slots[i], r.mbufs[i], addrs[i - r.mapNext]) else r.slots[i]),
       phase := Arming(r.phase.left, BATCH, false))
  }

  /** The mapper refuses the batch: rxMapBuffers gives up, the batch stays unmapped. */
  function GiveUp(r: Ring): Ring
    requires r.phase.Torn? && |r.slots| == |r.mbufs| == RING
  {
    r.(slots := seq(RING, i requires 0 <= i < RING =>
                      if r.mapNext <= i < r.mapNext + BATCH && r.slots[i].phy == 0
                      then r.slots[i].(range := r.mbufs[i]) else r.slots[i]),
       lost := r.lost + r.phase.left, phase := Idle)
  }

  /** Record the new address and write it to the descriptor. */
  function SetAddr(r: Ring): Ring
    requires r.phase.Arming? && r.arm < |r.slots| && r.slots[r.arm].mapped.Some?
  {
    var a := r.slots[r.arm].mapped.value.addr;
    r.(slots := r.slots[r.arm := r.slots[r.arm].(phy := a, addr := a, bare := false)],
       phase := r.phase.(addrSet := true))
  }

  /** Hand the descriptor to the chip. */
  function SetOwn(r: Ring): Ring
    requires r.phase.Arming? && r.phase.todo > 0 && r.arm < |r.slots| && r.pend > 0 && r.fin > 0
  {
    r.(slots := r.slots[r.arm := r.slots[r.arm].(own := true)],
       arm := Inc(r.arm), pend := r.pend - 1, fin := r.fin - 1,
       phase := r.phase.(todo := r.phase.todo - 1, addrSet := false))
  }

  function NextBatch(r: Ring): Ring
    requires r.phase.Arming? && r.phase.left > 0
  {
    r.(mapNext := Fwd(r.mapNext, BATCH), phase := Between(r.phase.left - 1))
  }

  /** What a clear does to the slot in position i when the mapper maps the first k batches
      and refuses the next one: the slots behind them keep mapping and phyAddr, those of the
      refused batch have lost their mapping, and all are armed at their phyAddr. */
  function ClearSlot(s: Slot, mbuf: nat, addr: nat, i: nat, k: nat): Slot {
    if i < BATCH * k then Remap(s, mbuf, addr).(phy := addr, addr := addr, own := true, bare := false)
    else if i < BATCH * k + BATCH then
      s.(range := if s.phy == 0 then mbuf else s.range, mapped := None, addr := s.phy, own := true, bare := true)
    else
      var t := s.(addr := s.phy, own := true);
      t.(bare := s.mapped != Some(Mapping(s.phy, mbuf)))
  }

  /** clearRxTxRings, the receive half, with the chip stopped: rxMapBuffers over all batches,
      whose result is not looked at, then every descriptor is armed. */
  function Clear(r: Ring, addrs: seq<nat>, k: nat): Ring
    requires |r.slots| == |r.mbufs| == |addrs| == RING
  {
    r.(slots := seq(RING, i requires 0 <= i < RING => ClearSlot(r.slots[i], r.mbufs[i], addrs[i], i, k)),
       arm := 0, pend := 0, fin := 0, lost := 0, next := 0, mapNext := 0, dev := 0, phase := Idle,
       data := r.data.(base := r.data.got, read := []))
  }

  datatype Step =
    | FinishStep
    | BeginStep | ProcessStep(o: Outcome) | EndStep
    | UnmapStep | PrepareStep(addrs: seq<nat>) | GiveUpStep | SetAddrStep | SetOwnStep | NextBatchStep | DoneStep
    | ClearStep(addrs: seq<nat>, batches: nat)

  /** Device addresses are not zero, and no two buffers get the same. */
  ghost predicate GoodAddrs(addrs: seq<nat>) {
    (forall i :: 0 <= i < |addrs| ==> addrs[i] != 0) && Distinct(addrs)
  }

  /** The mapper does not hand out an address that is in use; the batch at `index` is not. */
  ghost predicate Unused(slots: seq<Slot>, index: nat, addrs: seq<nat>) {
    forall j, n :: 0 <= j < |slots| && !(index <= j < index + BATCH) && 0 <= n < |addrs| ==>
      Live(slots, j) != Some(addrs[n])
  }

  /** The same while a clear maps the first k batches one after the other: what it hands out is
      not in use in a batch the clear has not come to. */
  ghost predicate UnusedAhead(slots: seq<Slot>, addrs: seq<nat>, k: nat) {
    forall j, n :: 0 <= n < |addrs| && n < BATCH * k && n - n % BATCH + BATCH <= j < |slots| ==>
      Live(slots, j) != Some(addrs[n])
  }

  /** The chip's only test is the own bit, and so is the loop's; beyond that the loop is
      assumed not to go once around the whole ring before it maps again (pend < RING). */
  ghost predicate Can(r: Ring, step: Step) {
    match step
    case FinishStep => r.dev < |r.slots| && r.slots[r.dev].own
    case BeginStep => r.phase.Idle?
    case ProcessStep(_) => r.phase.Looping? && r.next < |r.slots| == |r.mbufs| && !r.slots[r.next].own && r.pend < RING
    case EndStep => r.phase.Looping?
    case UnmapStep => r.phase.Between? && r.phase.left > 0 && |r.slots| == RING
    case GiveUpStep => r.phase.Torn? && |r.slots| == |r.mbufs| == RING
    case PrepareStep(addrs) =>
      && r.phase.Torn? && |r.slots| == |r.mbufs| == RING
      && |addrs| == BATCH && GoodAddrs(addrs) && Unused(r.slots, r.mapNext, addrs)
    case SetAddrStep =>
      && r.phase.Arming? && r.phase.todo > 0 && !r.phase.addrSet
      && r.arm < |r.slots| && r.slots[r.arm].mapped.Some?
    case SetOwnStep =>
      && r.phase.Arming? && r.phase.todo > 0 && r.phase.addrSet && r.arm < |r.slots| && r.pend > 0 && r.fin > 0
    case NextBatchStep => r.phase.Arming? && r.phase.todo == 0 && r.phase.left > 0
    case DoneStep => r.phase.Between? && r.phase.left == 0
    case ClearStep(addrs, k) =>
      && r.phase.Idle? && |r.slots| == |r.mbufs| == |addrs| == RING && k <= BATCHES
      && GoodAddrs(addrs) && UnusedAhead(r.slots, addrs, k)
  }

  ghost function Do(r: Ring, step: Step): Ring
    requires Can(r, step)
  {
    match step
    case FinishStep => Finish(r)
    case BeginStep => r.(phase := Looping(0))
    case ProcessStep(o) => Process(r, o)
    case EndStep => r.(phase := Between(r.phase.numMap))
    case UnmapStep => Unmap(r)
    case GiveUpStep => GiveUp(r)
    case PrepareStep(addrs) => Prepare(r, addrs)
    case SetAddrStep => SetAddr(r)
    case SetOwnStep => SetOwn(r)
    case NextBatchStep => NextBatch(r)
    case DoneStep => r.(phase := Idle)
    case ClearStep(addrs, k) => Clear(r, addrs, k)
  }

  /** setupRxMap: every buffer mapped, every descriptor armed. */
  function Init(addrs: seq<nat>): Ring
    requires |addrs| == RING
  {
    Ring(seq(RING, i requires 0 <= i < RING =>
               Slot(true, addrs[i], None, addrs[i], i, Some(Mapping(addrs[i], i)), false)),
         seq(RING, i => i), [], RING, 0, 0, 0, 0, 0, 0, 0, Idle, Data(map[], 0, 0, []))
  }

  // ---------------------------------------------------------------- invariant

  /** How far slot i lies ahead of the next one to arm. */
  function Dist(arm: nat, i: nat): int {
    if i >= arm then i - arm else i + RING - arm
  }

  /** The slot's buffer is mapped where its descriptor points. */
  predicate Clean(s: Slot, mbuf: nat) {
    s.phy != 0 && s.addr == s.phy && s.mapped == Some(Mapping(s.phy, mbuf)) && s.range == mbuf
  }

  /** The slot is not mapped where its descriptor points. */
  predicate Stray(s: Slot) {
    s.mapped.Some? ==> s.mapped.value.addr != s.addr
  }

  /** A slot d positions ahead; the first `todo` are mapped and about to be armed. */
  predicate SlotOk(s: Slot, mbuf: nat, d: int, pend: int, fin: int, todo: int) {
    && (s.own <==> d >= fin)
    && (d >= pend ==> if s.bare then Stray(s) else Clean(s, mbuf))
    && (pend <= d < fin ==> (s.filled == Some(mbuf) <==> !s.bare))
    && (d < todo ==> s.range == mbuf && s.mapped.Some? && s.mapped.value.mbuf == mbuf && s.mapped.value.addr != 0)
    && (s.phy != 0 ==> s.range == mbuf)
    && (d >= todo && s.mapped.Some? ==>
          s.mapped.value.addr != 0 && (s.phy != 0 ==> s.mapped.value == Mapping(s.phy, mbuf)))
  }

  function Todo(p: Phase): nat {
    if p.Arming? then p.todo else 0
  }

  ghost predicate Slots(slots: seq<Slot>, mbufs: seq<nat>, arm: nat, pend: nat, fin: nat, todo: nat) {
    && |slots| == |mbufs| == RING
    && forall i :: 0 <= i < RING ==> SlotOk(slots[i], mbufs[i], Dist(arm, i), pend, fin, todo)
  }

  ghost predicate Indices(r: Ring) {
    && r.arm < RING && r.next < RING && r.dev < RING && r.mapNext < RING && r.mapNext % BATCH == 0
    && r.pend <= r.fin <= RING
    && r.next == Fwd(r.arm, r.pend) && r.dev == Fwd(r.arm, r.fin)
  }

  /** How much is waiting to be mapped, in every phase. */
  ghost predicate Batches(phase: Phase, arm: nat, mapNext: nat, pend: int, lost: nat) {
    match phase
    case Idle => arm == mapNext && BATCH * lost <= pend < BATCH * lost + BATCH
    case Looping(n) => arm == mapNext && BATCH * (n + lost) <= pend < BATCH * (n + lost) + BATCH
    case Between(n) => arm == mapNext && BATCH * (n + lost) <= pend < BATCH * (n + lost) + BATCH
    case Torn(n) => n > 0 && arm == mapNext && BATCH * (n + lost) <= pend < BATCH * (n + lost) + BATCH
    case Arming(n, todo, _) =>
      && n > 0 && todo <= BATCH && arm == Fwd(mapNext, BATCH - todo)
      && BATCH * (n - 1 + lost) <= pend - todo < BATCH * (n - 1 + lost) + BATCH
  }

  ghost predicate AddrWritten(r: Ring) {
    r.phase.Arming? && r.phase.addrSet ==>
      && r.phase.todo > 0 && r.arm < |r.slots| == |r.mbufs|
      && Clean(r.slots[r.arm], r.mbufs[r.arm]) && !r.slots[r.arm].bare
  }

  ghost predicate Distinct(s: seq<nat>) {
    forall i, j :: 0 <= i < j < |s| ==> s[i] != s[j]
  }

  /** No address is mapped twice. */
  ghost predicate Apart(slots: seq<Slot>) {
    forall i, j {:trigger Live(slots, i), Live(slots, j)} :: 0 <= i < j < |slots| && Live(slots, i).Some? ==>
      Live(slots, i) != Live(slots, j)
  }

  /** A mapping leads to the mbuf in its slot or, if that was replaced, to one passed up. */
  ghost predicate Sources(slots: seq<Slot>, mbufs: seq<nat>, delivered: seq<nat>) {
    && |slots| == |mbufs|
    && forall i :: 0 <= i < |slots| && slots[i].mapped.Some? ==>
         slots[i].mapped.value.mbuf == mbufs[i] || slots[i].mapped.value.mbuf in delivered
  }

  /** A slot without a mapping that no clear has armed. */
  predicate Loose(s: Slot) {
    s.mapped.None? && !s.bare
  }

  ghost predicate NotLive(slots: seq<Slot>, addr: nat) {
    forall j :: 0 <= j < |slots| ==> Live(slots, j) != Some(addr)
  }

  /** Only the batch to be mapped next can be without mapping; its old addresses are not in use. */
  ghost predicate LooseOk(slots: seq<Slot>, phase: Phase, mapNext: nat) {
    forall i :: 0 <= i < |slots| && Loose(slots[i]) ==>
      && !phase.Arming? && mapNext <= i < mapNext + BATCH
      && (slots[i].phy != 0 ==> NotLive(slots, slots[i].phy))
  }

  ghost predicate Mapper(r: Ring) {
    Apart(r.slots) && Sources(r.slots, r.mbufs, r.delivered) && LooseOk(r.slots, r.phase, r.mapNext)
  }

  /** How far ahead the descriptor is that fragment n was received for. */
  function Place(fin: nat, data: Data, n: nat): int {
    n + fin - data.got
  }

  /** Descriptors d places ahead, from pend up to fin, are finished and not processed.  What one
      of them was written to holds its fragment or a later one, and the mbuf that holds its
      fragment is what it was written to. */
  ghost predicate Written(slots: seq<Slot>, arm: nat, pend: nat, fin: nat, data: Data) {
    && |slots| == RING && data.base + |data.read| + fin == data.got + pend
    && (forall i {:trigger WrittenAt(slots, arm, fin, data, i)} ::
          0 <= i < RING && pend <= Dist(arm, i) < fin && slots[i].filled.Some? ==> WrittenAt(slots, arm, fin, data, i))
    && (forall m {:trigger HeldAt(slots, arm, pend, fin, data, m)} ::
          m in data.held ==> HeldAt(slots, arm, pend, fin, data, m))
  }

  predicate WrittenAt(slots: seq<Slot>, arm: nat, fin: nat, data: Data, i: nat)
    requires i < |slots| && slots[i].filled.Some?
  {
    var m := slots[i].filled.value;
    m in data.held && Dist(arm, i) <= Place(fin, data, data.held[m])
  }

  predicate HeldAt(slots: seq<Slot>, arm: nat, pend: nat, fin: nat, data: Data, m: nat)
    requires m in data.held
  {
    var d := Place(fin, data, data.held[m]);
    d < fin && (pend <= d ==> 0 <= Fwd(arm, d) < |slots| && slots[Fwd(arm, d)].filled == Some(m))
  }

  /** Every mbuf that ever entered the ring is in one slot or was passed up once. */
  ghost predicate Placed(mbufs: seq<nat>, delivered: seq<nat>, made: nat) {
    && Distinct(mbufs) && Distinct(delivered)
    && (forall i, j :: 0 <= i < |mbufs| && 0 <= j < |delivered| ==> mbufs[i] != delivered[j])
    && (forall i :: 0 <= i < |mbufs| ==> mbufs[i] < made)
    && (forall i :: 0 <= i < |delivered| ==> delivered[i] < made)
    && |mbufs| + |delivered| == made
  }

  ghost predicate Core(r: Ring) {
    && Indices(r) && Batches(r.phase, r.arm, r.mapNext, r.pend, r.lost)
    && Slots(r.slots, r.mbufs, r.arm, r.pend, r.fin, Todo(r.phase))
    && AddrWritten(r) && Placed(r.mbufs, r.delivered, r.made)
  }

  ghost predicate Inv(r: Ring) {
    Core(r) && Mapper(r) && Written(r.slots, r.arm, r.pend, r.fin, r.data)
  }

  // ---------------------------------------------------------------- looking addresses up

  /** A mapped address leads to its mapping, and nowhere else. */
  lemma LookupIs(slots: seq<Slot>, i: nat)
    requires Apart(slots) && i < |slots| && slots[i].mapped.Some?
    ensures Lookup(slots, slots[i].mapped.value.addr) == Some(slots[i].mapped.value.mbuf)
  {
    var a := slots[i].mapped.value.addr;
    assert Live(slots, i) == Some(a);
    forall j | 0 <= j < |slots| && Live(slots, j) == Some(a) ensures j == i {
    }
  }

  lemma LookupNone(slots: seq<Slot>, addr: nat)
    ensures Lookup(slots, addr) == None <==> NotLive(slots, addr)
  {
  }

  /** What a lookup finds was mapped for some slot. */
  lemma LookupFinds(slots: seq<Slot>, addr: nat) returns (j: nat)
    requires Lookup(slots, addr).Some?
    ensures j < |slots| && Live(slots, j) == Some(addr) && Lookup(slots, addr) == Some(slots[j].mapped.value.mbuf)
  {
    j :| 0 <= j < |slots| && Live(slots, j) == Some(addr) &&
      Lookup(slots, addr) == Some(slots[j].mapped.value.mbuf);
  }

  /** A descriptor the chip owns, or has finished and the driver not yet processed, leads to
      the mbuf in its slot exactly if it was armed with a mapping. */
  lemma TargetOwn(r: Ring, i: nat)
    requires Core(r) && Apart(r.slots) && Sources(r.slots, r.mbufs, r.delivered)
    requires i < RING && Dist(r.arm, i) >= r.pend
    ensures Target(r.slots, i) == Some(r.mbufs[i]) <==> !r.slots[i].bare
  {
    var s := r.slots[i];
    assert SlotOk(s, r.mbufs[i], Dist(r.arm, i), r.pend, r.fin, Todo(r.phase));
    if !s.bare {
      LookupIs(r.slots, i);
    } else if Target(r.slots, i).Some? {
      var j := LookupFinds(r.slots, s.addr);
      OtherMbuf(r, i, j);
    }
  }

  lemma OtherMbuf(r: Ring, i: nat, j: nat)
    requires Placed(r.mbufs, r.delivered, r.made) && Sources(r.slots, r.mbufs, r.delivered)
    requires i < |r.slots| && j < |r.slots| && i != j && r.slots[j].mapped.Some?
    ensures r.slots[j].mapped.value.mbuf != r.mbufs[i]
  {
    var m := r.slots[j].mapped.value.mbuf;
    if m in r.delivered {
      var n :| 0 <= n < |r.delivered| && r.delivered[n] == m;
      assert r.mbufs[i] != r.delivered[n];
    }
  }

  // ---------------------------------------------------------------- each step keeps the core

  /** The slot n ahead is the only one at that distance. */
  lemma Ahead(arm: nat, n: nat)
    requires arm < RING && n <= RING
    ensures n < RING ==> Dist(arm, Fwd(arm, n)) == n
    ensures n == RING ==> Fwd(arm, n) == arm
    ensures forall i :: 0 <= i < RING && Dist(arm, i) == n ==> i == Fwd(arm, n)
  {
  }

  lemma FinishSlots(slots: seq<Slot>, mbufs: seq<nat>, arm: nat, pend: nat, fin: nat, todo: nat, t: Option<nat>)
    requires Slots(slots, mbufs, arm, pend, fin, todo) && pend <= fin < RING && arm < RING && todo <= pend
    requires var k := Fwd(arm, fin); t == Some(mbufs[k]) <==> !slots[k].bare
    ensures var k := Fwd(arm, fin);
            Slots(slots[k := slots[k].(own := false, filled := t)], mbufs, arm, pend, fin + 1, todo)
  {
    Ahead(arm, fin);
  }

  /** The chip never finishes more than a whole turn. */
  lemma FinishRoom(r: Ring)
    requires Core(r) && Can(r, FinishStep)
    ensures r.fin < RING
  {
    Ahead(r.arm, r.fin);
  }

  lemma FinishTarget(r: Ring)
    requires Core(r) && Apart(r.slots) && Sources(r.slots, r.mbufs, r.delivered) && Can(r, FinishStep)
    ensures Target(r.slots, r.dev) == Some(r.mbufs[r.dev]) <==> !r.slots[r.dev].bare
  {
    FinishRoom(r);
    Ahead(r.arm, r.fin);
    TargetOwn(r, r.dev);
  }

  lemma FinishCore(r: Ring)
    requires Core(r) && Can(r, FinishStep) && r.fin < RING
    requires Target(r.slots, r.dev) == Some(r.mbufs[r.dev]) <==> !r.slots[r.dev].bare
    ensures Core(Finish(r))
  {
    FinishSlots(r.slots, r.mbufs, r.arm, r.pend, r.fin, Todo(r.phase), Target(r.slots, r.dev));
  }

  /** The loop's test is right: the descriptor is finished and was not processed before. */
  lemma LoopTest(slots: seq<Slot>, mbufs: seq<nat>, arm: nat, pend: nat, fin: nat)
    requires Slots(slots, mbufs, arm, pend, fin, 0) && pend < RING && pend <= fin && arm < RING
    ensures !slots[Fwd(arm, pend)].own <==> pend < fin
  {
    Ahead(arm, pend);
  }

  lemma KeepSlots(slots: seq<Slot>, mbufs: seq<nat>, arm: nat, pend: nat, fin: nat)
    requires Slots(slots, mbufs, arm, pend, fin, 0)
    ensures Slots(slots, mbufs, arm, pend + 1, fin, 0)
  {
  }

  lemma ReplaceSlots(slots: seq<Slot>, mbufs: seq<nat>, arm: nat, pend: nat, fin: nat, n: nat)
    requires Slots(slots, mbufs, arm, pend, fin, 0) && pend < fin <= RING && arm < RING
    ensures var k := Fwd(arm, pend);
            Slots(slots[k := slots[k].(phy := 0)], mbufs[k := n], arm, pend + 1, fin, 0)
  {
    Ahead(arm, pend);
  }

  lemma ReplacePlaced(mbufs: seq<nat>, delivered: seq<nat>, made: nat, k: nat)
    requires Placed(mbufs, delivered, made) && k < |mbufs|
    ensures Placed(mbufs[k := made], delivered + [mbufs[k]], made + 1)
  {
  }

  lemma CountBatch(next: nat, arm: nat, pend: nat, n: nat)
    requires arm < RING && arm % BATCH == 0 && pend < RING && next == Fwd(arm, pend)
    requires BATCH * n <= pend < BATCH * n + BATCH
    ensures next % BATCH == BATCH - 1 <==> pend + 1 == BATCH * n + BATCH
    ensures Inc(next) == Fwd(arm, pend + 1)
  {
  }

  lemma Rounded(next: nat, mapNext: nat, pend: nat, lost: nat)
    requires mapNext < RING && mapNext % BATCH == 0 && pend <= RING && next == Fwd(mapNext, pend)
    requires BATCH * lost <= pend < BATCH * lost + BATCH
    ensures next % BATCH == pend - BATCH * lost
  {
  }

  lemma ProcessCore(r: Ring, o: Outcome)
    requires Core(r) && Can(r, ProcessStep(o))
    ensures Core(Process(r, o)) && r.pend < r.fin
  {
    LoopTest(r.slots, r.mbufs, r.arm, r.pend, r.fin);
    CountBatch(r.next, r.arm, r.pend, r.phase.numMap + r.lost);
    if o == Kept {
      KeepSlots(r.slots, r.mbufs, r.arm, r.pend, r.fin);
    } else {
      ReplaceSlots(r.slots, r.mbufs, r.arm, r.pend, r.fin, r.made);
      ReplacePlaced(r.mbufs, r.delivered, r.made, r.next);
    }
  }

  lemma UnmapCore(r: Ring)
    requires Core(r) && Can(r, UnmapStep)
    ensures Core(Unmap(r))
  {
  }

  lemma GiveUpCore(r: Ring)
    requires Core(r) && Can(r, GiveUpStep)
    ensures Core(GiveUp(r))
  {
  }

  lemma PrepareCore(r: Ring, addrs: seq<nat>)
    requires Core(r) && Can(r, PrepareStep(addrs))
    ensures Core(Prepare(r, addrs))
  {
  }

  lemma SetAddrCore(r: Ring)
    requires Core(r) && Can(r, SetAddrStep)
    ensures Core(SetAddr(r))
  {
  }

  lemma ArmSlots(slots: seq<Slot>, mbufs: seq<nat>, arm: nat, pend: nat, fin: nat, todo: nat)
    requires Slots(slots, mbufs, arm, pend, fin, todo) && arm < RING && 0 < todo <= pend <= fin <= RING
    requires Clean(slots[arm], mbufs[arm]) && !slots[arm].bare
    ensures Slots(slots[arm := slots[arm].(own := true)], mbufs, Inc(arm), pend - 1, fin - 1, todo - 1)
  {
    forall i | 0 <= i < RING && i != arm ensures Dist(Inc(arm), i) == Dist(arm, i) - 1 {
    }
    assert Dist(Inc(arm), arm) == RING - 1;
  }

  lemma SetOwnIndices(r: Ring)
    requires Indices(r) && Batches(r.phase, r.arm, r.mapNext, r.pend, r.lost) && Can(r, SetOwnStep)
    ensures var q := SetOwn(r); Indices(q) && Batches(q.phase, q.arm, q.mapNext, q.pend, q.lost)
    ensures r.phase.todo <= r.pend
  {
  }

  lemma SetOwnCore(r: Ring)
    requires Core(r) && Can(r, SetOwnStep)
    ensures Core(SetOwn(r))
  {
    SetOwnIndices(r);
    ArmSlots(r.slots, r.mbufs, r.arm, r.pend, r.fin, r.phase.todo);
  }

  lemma NextBatchCore(r: Ring)
    requires Core(r) && Can(r, NextBatchStep)
    ensures Core(NextBatch(r))
  {
  }

  lemma ClearCore(r: Ring, addrs: seq<nat>, k: nat)
    requires Core(r) && Can(r, ClearStep(addrs, k))
    ensures Core(Clear(r, addrs, k))
  {
  }

  // ---------------------------------------------------------------- and the mapper's part

  /** Steps that leave the mappings alone. */
  ghost predicate SameMaps(a: seq<Slot>, b: seq<Slot>) {
    |a| == |b| && forall i :: 0 <= i < |a| ==> a[i].mapped == b[i].mapped
  }

  lemma SameApart(a: seq<Slot>, b: seq<Slot>)
    requires SameMaps(a, b)
    ensures Apart(a) ==> Apart(b)
    ensures forall addr :: NotLive(a, addr) ==> NotLive(b, addr)
  {
    forall i | 0 <= i < |a| ensures Live(a, i) == Live(b, i) {
    }
  }

  /** Such a step keeps the mapper's part unless it gives a slot without mapping an address. */
  lemma SameMapper(r: Ring, q: Ring)
    requires Mapper(r) && SameMaps(r.slots, q.slots) && q.mbufs == r.mbufs && q.delivered == r.delivered
    requires q.mapNext == r.mapNext && (q.phase.Arming? ==> r.phase.Arming?)
    requires forall i :: 0 <= i < |q.slots| && Loose(q.slots[i]) ==>
               Loose(r.slots[i]) && q.slots[i].phy == r.slots[i].phy
    ensures Mapper(q)
  {
    SameApart(r.slots, q.slots);
  }

  lemma ProcessMapper(r: Ring, o: Outcome)
    requires Mapper(r) && Can(r, ProcessStep(o))
    ensures Mapper(Process(r, o))
  {
    var q := Process(r, o);
    SameApart(r.slots, q.slots);
    assert o == Replaced ==> r.mbufs[r.next] in q.delivered;
  }

  lemma UnmapMapper(r: Ring)
    requires Core(r) && Mapper(r) && Can(r, UnmapStep)
    ensures Mapper(Unmap(r))
  {
    var q := Unmap(r);
    forall i | 0 <= i < RING ensures Live(q.slots, i) == Live(r.slots, i) || Live(q.slots, i) == None {
    }
    forall i | 0 <= i < RING && Loose(q.slots[i]) && q.slots[i].phy != 0 ensures NotLive(q.slots, q.slots[i].phy) {
      TornAddress(r, i);
    }
  }

  /** The recorded address of a slot in the batch is not in use outside it. */
  lemma TornAddress(r: Ring, i: nat)
    requires Core(r) && Mapper(r) && Can(r, UnmapStep) && i < RING && r.slots[i].phy != 0
    requires Loose(Unmap(r).slots[i])
    ensures NotLive(Unmap(r).slots, r.slots[i].phy)
  {
    var q := Unmap(r);
    assert SlotOk(r.slots[i], r.mbufs[i], Dist(r.arm, i), r.pend, r.fin, 0);
    forall j | 0 <= j < RING ensures Live(q.slots, j) != Some(r.slots[i].phy) {
      assert Live(q.slots, j) == None || Live(q.slots, j) == Live(r.slots, j);
      if Loose(r.slots[i]) {
        assert Live(r.slots, j) != Some(r.slots[i].phy);
      } else {
        assert Live(r.slots, i) == Some(r.slots[i].phy);
      }
    }
  }

  lemma PrepareLive(r: Ring, addrs: seq<nat>, i: nat)
    requires Can(r, PrepareStep(addrs)) && i < RING
    ensures Live(Prepare(r, addrs).slots, i) ==
            if r.mapNext <= i < r.mapNext + BATCH then Some(addrs[i - r.mapNext]) else Live(r.slots, i)
  {
  }

  lemma PrepareApart(r: Ring, addrs: seq<nat>)
    requires Apart(r.slots) && Can(r, PrepareStep(addrs))
    ensures Apart(Prepare(r, addrs).slots)
  {
    var q := Prepare(r, addrs);
    forall i, j | 0 <= i < j < RING && Live(q.slots, i).Some? ensures Live(q.slots, i) != Live(q.slots, j) {
      PrepareLive(r, addrs, i);
      PrepareLive(r, addrs, j);
    }
  }

  lemma PrepareMapper(r: Ring, addrs: seq<nat>)
    requires Core(r) && Mapper(r) && Can(r, PrepareStep(addrs))
    ensures Mapper(Prepare(r, addrs))
  {
    var q := Prepare(r, addrs);
    PrepareApart(r, addrs);
    forall i | 0 <= i < RING && q.slots[i].mapped.Some?
      ensures q.slots[i].mapped.value.mbuf == q.mbufs[i] || q.slots[i].mapped.value.mbuf in q.delivered
    {
      assert SlotOk(r.slots[i], r.mbufs[i], Dist(r.arm, i), r.pend, r.fin, 0);
    }
  }

  lemma ClearLive(r: Ring, addrs: seq<nat>, k: nat, i: nat)
    requires |r.slots| == |r.mbufs| == |addrs| == RING && i < RING
    ensures Live(Clear(r, addrs, k).slots, i) ==
            if i < BATCH * k then Some(addrs[i])
            else if i < BATCH * k + BATCH then None
            else Live(r.slots, i)
  {
  }

  lemma ClearApart(r: Ring, addrs: seq<nat>, k: nat)
    requires Apart(r.slots) && Can(r, ClearStep(addrs, k))
    ensures Apart(Clear(r, addrs, k).slots)
  {
    var q := Clear(r, addrs, k);
    forall i, j | 0 <= i < j < RING && Live(q.slots, i).Some? ensures Live(q.slots, i) != Live(q.slots, j) {
      ClearLive(r, addrs, k, i);
      ClearLive(r, addrs, k, j);
      if i < BATCH * k && j >= BATCH * k + BATCH {
        assert i - i % BATCH + BATCH <= j;
      }
    }
  }

  lemma ClearMapper(r: Ring, addrs: seq<nat>, k: nat)
    requires Core(r) && Mapper(r) && Can(r, ClearStep(addrs, k))
    ensures Mapper(Clear(r, addrs, k))
  {
    var q := Clear(r, addrs, k);
    ClearApart(r, addrs, k);
    forall i | 0 <= i < RING && q.slots[i].mapped.Some?
      ensures q.slots[i].mapped.value.mbuf == q.mbufs[i] || q.slots[i].mapped.value.mbuf in q.delivered
    {
      assert SlotOk(r.slots[i], r.mbufs[i], Dist(r.arm, i), r.pend, r.fin, 0);
    }
  }

  // ---------------------------------------------------------------- and what the mbufs hold

  lemma FinishWritten(slots: seq<Slot>, arm: nat, pend: nat, fin: nat, data: Data, t: Option<nat>)
    requires Written(slots, arm, pend, fin, data) && arm < RING && pend <= fin < RING
    ensures var k := Fwd(arm, fin);
            Written(slots[k := slots[k].(own := false, filled := t)], arm, pend, fin + 1, Put(data, t))
  {
    Ahead(arm, fin);
    var k := Fwd(arm, fin);
    var slots', data' := slots[k := slots[k].(own := false, filled := t)], Put(data, t);
    forall i | 0 <= i < RING && pend <= Dist(arm, i) < fin + 1 && slots'[i].filled.Some?
      ensures WrittenAt(slots', arm, fin + 1, data', i)
    {
      if i != k {
        assert WrittenAt(slots, arm, fin, data, i);
      }
    }
    forall m | m in data'.held ensures HeldAt(slots', arm, pend, fin + 1, data', m) {
      if Some(m) != t {
        assert HeldAt(slots, arm, pend, fin, data, m);
      }
    }
  }

  ghost predicate SameFilled(a: seq<Slot>, b: seq<Slot>) {
    |a| == |b| == RING && forall i :: 0 <= i < RING ==> a[i].filled == b[i].filled
  }

  /** Arming a descriptor moves the place everything is counted from. */
  lemma ShiftWritten(slots: seq<Slot>, arm: nat, pend: nat, fin: nat, data: Data, slots': seq<Slot>)
    requires Written(slots, arm, pend, fin, data) && arm < RING && 0 < pend <= fin <= RING && SameFilled(slots, slots')
    ensures Written(slots', Inc(arm), pend - 1, fin - 1, data)
  {
    forall i | 0 <= i < RING && pend - 1 <= Dist(Inc(arm), i) < fin - 1 && slots'[i].filled.Some?
      ensures WrittenAt(slots', Inc(arm), fin - 1, data, i)
    {
      assert Dist(Inc(arm), i) == Dist(arm, i) - 1;
      assert WrittenAt(slots, arm, fin, data, i);
    }
    forall m | m in data.held ensures HeldAt(slots', Inc(arm), pend - 1, fin - 1, data, m) {
      assert HeldAt(slots, arm, pend, fin, data, m);
    }
  }

  /** Steps that neither finish nor arm a descriptor. */
  lemma SameWritten(slots: seq<Slot>, arm: nat, pend: nat, fin: nat, data: Data, slots': seq<Slot>)
    requires Written(slots, arm, pend, fin, data) && SameFilled(slots, slots')
    ensures Written(slots', arm, pend, fin, data)
  {
    forall i | 0 <= i < RING && pend <= Dist(arm, i) < fin && slots'[i].filled.Some?
      ensures WrittenAt(slots', arm, fin, data, i)
    {
      assert WrittenAt(slots, arm, fin, data, i);
    }
    forall m | m in data.held ensures HeldAt(slots', arm, pend, fin, data, m) {
      assert HeldAt(slots, arm, pend, fin, data, m);
    }
  }

  /** What is left of the window after one pass. */
  lemma PassWritten(slots: seq<Slot>, arm: nat, pend: nat, fin: nat, data: Data, slots': seq<Slot>, x: Option<nat>)
    requires Written(slots, arm, pend, fin, data) && pend < fin && SameFilled(slots, slots')
    ensures Written(slots', arm, pend + 1, fin, data.(read := data.read + [x]))
  {
    var data' := data.(read := data.read + [x]);
    forall i | 0 <= i < RING && pend + 1 <= Dist(arm, i) < fin && slots'[i].filled.Some?
      ensures WrittenAt(slots', arm, fin, data', i)
    {
      assert WrittenAt(slots, arm, fin, data, i);
    }
    forall m | m in data.held ensures HeldAt(slots', arm, pend + 1, fin, data', m) {
      assert HeldAt(slots, arm, pend, fin, data, m);
    }
  }

  /** After a clear nothing is finished. */
  lemma ClearWritten(slots: seq<Slot>, arm: nat, pend: nat, fin: nat, data: Data, slots': seq<Slot>)
    requires Written(slots, arm, pend, fin, data) && |slots'| == RING
    ensures Written(slots', 0, 0, 0, data.(base := data.got, read := []))
  {
    var data' := data.(base := data.got, read := []);
    forall m | m in data.held ensures HeldAt(slots', 0, 0, 0, data', m) {
      assert HeldAt(slots, arm, pend, fin, data, m);
    }
  }

  // ---------------------------------------------------------------- each step keeps all of it

  lemma FinishMapper(r: Ring)
    requires Mapper(r) && Can(r, FinishStep)
    ensures Mapper(Finish(r))
  {
    SameMapper(r, Finish(r));
  }

  lemma FinishData(r: Ring)
    requires Indices(r) && Written(r.slots, r.arm, r.pend, r.fin, r.data) && r.fin < RING
    ensures var q := Finish(r); Written(q.slots, q.arm, q.pend, q.fin, q.data)
  {
    FinishWritten(r.slots, r.arm, r.pend, r.fin, r.data, Target(r.slots, r.dev));
  }

  lemma FinishInv(r: Ring)
    requires Inv(r) && Can(r, FinishStep)
    ensures Inv(Finish(r))
  {
    FinishRoom(r);
    FinishTarget(r);
    FinishCore(r);
    FinishMapper(r);
    FinishData(r);
  }

  lemma ProcessInv(r: Ring, o: Outcome)
    requires Inv(r) && Can(r, ProcessStep(o))
    ensures Inv(Process(r, o))
  {
    ProcessCore(r, o);
    ProcessMapper(r, o);
    PassWritten(r.slots, r.arm, r.pend, r.fin, r.data, Process(r, o).slots, Found(r.data, r.mbufs[r.next]));
  }

  lemma UnmapInv(r: Ring)
    requires Inv(r) && Can(r, UnmapStep)
    ensures Inv(Unmap(r))
  {
    UnmapCore(r);
    UnmapMapper(r);
    SameWritten(r.slots, r.arm, r.pend, r.fin, r.data, Unmap(r).slots);
  }

  lemma GiveUpInv(r: Ring)
    requires Inv(r) && Can(r, GiveUpStep)
    ensures Inv(GiveUp(r))
  {
    GiveUpCore(r);
    SameMapper(r, GiveUp(r));
    SameWritten(r.slots, r.arm, r.pend, r.fin, r.data, GiveUp(r).slots);
  }

  lemma PrepareInv(r: Ring, addrs: seq<nat>)
    requires Inv(r) && Can(r, PrepareStep(addrs))
    ensures Inv(Prepare(r, addrs))
  {
    PrepareCore(r, addrs);
    PrepareMapper(r, addrs);
    SameWritten(r.slots, r.arm, r.pend, r.fin, r.data, Prepare(r, addrs).slots);
  }

  lemma SetAddrInv(r: Ring)
    requires Inv(r) && Can(r, SetAddrStep)
    ensures Inv(SetAddr(r))
  {
    SetAddrCore(r);
    SameMapper(r, SetAddr(r));
    SameWritten(r.slots, r.arm, r.pend, r.fin, r.data, SetAddr(r).slots);
  }

  lemma SetOwnMapper(r: Ring)
    requires Mapper(r) && Can(r, SetOwnStep)
    ensures Mapper(SetOwn(r))
  {
    SameMapper(r, SetOwn(r));
  }

  lemma SetOwnInv(r: Ring)
    requires Inv(r) && Can(r, SetOwnStep)
    ensures Inv(SetOwn(r))
  {
    SetOwnCore(r);
    SetOwnMapper(r);
    ShiftWritten(r.slots, r.arm, r.pend, r.fin, r.data, SetOwn(r).slots);
  }

  lemma NextBatchInv(r: Ring)
    requires Inv(r) && Can(r, NextBatchStep)
    ensures Inv(NextBatch(r))
  {
    NextBatchCore(r);
  }

  lemma ClearInv(r: Ring, addrs: seq<nat>, k: nat)
    requires Inv(r) && Can(r, ClearStep(addrs, k))
    ensures Inv(Clear(r, addrs, k))
  {
    ClearCore(r, addrs, k);
    ClearMapper(r, addrs, k);
    ClearWritten(r.slots, r.arm, r.pend, r.fin, r.data, Clear(r, addrs, k).slots);
  }

  lemma StepInv(r: Ring, step: Step)
    requires Inv(r) && Can(r, step)
    ensures Inv(Do(r, step))
  {
    match step
    case FinishStep => FinishInv(r);
    case ProcessStep(o) => ProcessInv(r, o);
    case UnmapStep => UnmapInv(r);
    case GiveUpStep => GiveUpInv(r);
    case PrepareStep(addrs) => PrepareInv(r, addrs);
    case SetAddrStep => SetAddrInv(r);
    case SetOwnStep => SetOwnInv(r);
    case NextBatchStep => NextBatchInv(r);
    case ClearStep(addrs, k) => ClearInv(r, addrs, k);
    case BeginStep =>
    case EndStep =>
    case DoneStep =>
  }

  lemma InitInv(addrs: seq<nat>)
    requires |addrs| == RING && GoodAddrs(addrs)
    ensures Inv(Init(addrs))
  {
    forall i | 0 <= i < RING ensures Live(Init(addrs).slots, i) == Some(addrs[i]) {
    }
  }

  ghost function RunFrom(r: Ring, steps: seq<Step>): Option<Ring> {
    if steps == [] then Some(r)
    else
      match RunFrom(r, steps[..|steps| - 1])
      case None => None
      case Some(q) =>
        if Can(q, steps[|steps| - 1]) then Some(Do(q, steps[|steps| - 1])) else None
  }

  lemma {:induction false} RunInv(r: Ring, steps: seq<Step>)
    requires Inv(r)
    ensures match RunFrom(r, steps) case None => true case Some(q) => Inv(q)
  {
    if steps != [] {
      RunInv(r, steps[..|steps| - 1]);
      var q := RunFrom(r, steps[..|steps| - 1]);
      if q.Some? && Can(q.value, steps[|steps| - 1]) {
        StepInv(q.value, steps[|steps| - 1]);
      }
    }
  }
}
