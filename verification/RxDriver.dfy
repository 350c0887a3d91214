/**
 rxInterruptVTD and rxMapBuffers as they run: loops over the descriptor, buffer and address
 range arrays.  The ghost field r follows the protocol state step by step.
 */
module RxDriver {
  import opened Options
  import opened RxRing

  datatype Desc = Desc(own: bool, addr: nat)
  datatype Buf = Buf(mbuf: nat, phyAddr: nat)

  /** The mbufs that leave the ring when the descriptors from `at` on are processed. */
  function Taken(mbufs: seq<nat>, at: nat, os: seq<Outcome>): seq<nat>
    requires |mbufs| == RING && at < RING && |os| <= RING
  {
    if os == [] then []
    else
      var n := |os| - 1;
      Taken(mbufs, at, os[..n]) + if os[n] == Replaced then [mbufs[Fwd(at, n)]] else []
  }

  /** From the k-th slot of the batch at `index` on, the slots are mapped at `addrs`. */
  ghost predicate MapsTo(slots: seq<Slot>, index: nat, k: nat, addrs: seq<nat>) {
    forall j :: k <= j < |addrs| && index + j < |slots| ==>
      slots[index + j].mapped.Some? && slots[index + j].mapped.value.addr == addrs[j]
  }

  /** The addresses in use, slot by slot. */
  function InUse(slots: seq<Slot>): seq<Option<nat>> {
    seq(|slots|, i requires 0 <= i < |slots| => Live(slots, i))
  }

  /** The same after the batch at `index` was mapped at `addrs`. */
  function Mapped(live: seq<Option<nat>>, index: nat, addrs: seq<nat>): seq<Option<nat>>
    requires |addrs| == BATCH
  {
    seq(|live|, i requires 0 <= i < |live| => if index <= i < index + BATCH then Some(addrs[i - index]) else live[i])
  }

  /** The mapper may hand out `addrs` for the batch at `index`, which it has just torn down:
      none of them is in use for another slot. */
  ghost predicate Offered(live: seq<Option<nat>>, index: nat, addrs: seq<nat>) {
    && |addrs| == BATCH && GoodAddrs(addrs)
    && forall j, n :: 0 <= j < |live| && !(index <= j < index + BATCH) && 0 <= n < BATCH ==> live[j] != Some(addrs[n])
  }

  /** And `batches` one after the other, for the batches from `index` on. */
  ghost predicate Offers(live: seq<Option<nat>>, index: nat, batches: seq<seq<nat>>)
    decreases |batches|
  {
    batches == [] ||
    (Offered(live, index, batches[0]) &&
     Offers(Mapped(live, index, batches[0]), if index + BATCH < RING then index + BATCH else 0, batches[1..]))
  }

  lemma OffersNext(live: seq<Option<nat>>, index: nat, batches: seq<seq<nat>>, n: nat)
    requires n < |batches| && index < RING && index + BATCH <= RING && Offers(live, index, batches[n..])
    ensures Offered(live, index, batches[n])
    ensures Offers(Mapped(live, index, batches[n]), Fwd(index, BATCH), batches[n + 1..])
  {
    assert batches[n..][1..] == batches[n + 1..];
  }

  lemma SameInUse(a: seq<Slot>, b: seq<Slot>)
    requires SameMaps(a, b)
    ensures InUse(a) == InUse(b)
  {
  }

  lemma OfferedUnused(slots: seq<Slot>, index: nat, addrs: seq<nat>)
    requires Offered(InUse(slots), index, addrs)
    ensures Unused(slots, index, addrs)
  {
    forall j, n | 0 <= j < |slots| && !(index <= j < index + BATCH) && 0 <= n < |addrs|
      ensures Live(slots, j) != Some(addrs[n])
    {
      assert InUse(slots)[j] == Live(slots, j);
    }
  }

  /** Tearing the batch down does not matter to the others. */
  lemma TornOffered(r: Ring, addrs: seq<nat>)
    requires r.phase.Between? && |r.slots| == RING && Offered(InUse(r.slots), r.mapNext, addrs)
    ensures Offered(InUse(Unmap(r).slots), r.mapNext, addrs)
    ensures Mapped(InUse(Unmap(r).slots), r.mapNext, addrs) == Mapped(InUse(r.slots), r.mapNext, addrs)
  {
    var a, b := InUse(r.slots), InUse(Unmap(r).slots);
    forall j | 0 <= j < RING && !(r.mapNext <= j < r.mapNext + BATCH) ensures a[j] == b[j] {
    }
  }

  lemma PrepareInUse(r: Ring, addrs: seq<nat>)
    requires Can(r, PrepareStep(addrs))
    ensures InUse(Prepare(r, addrs).slots) == Mapped(InUse(r.slots), r.mapNext, addrs)
  {
    forall i: nat | i < RING ensures InUse(Prepare(r, addrs).slots)[i] == Mapped(InUse(r.slots), r.mapNext, addrs)[i] {
      PrepareLive(r, addrs, i);
    }
  }

  /** Arming a descriptor leaves the mappings alone. */
  lemma ArmKeeps(r: Ring, before: seq<Slot>, index: nat, k: nat, addrs: seq<nat>)
    requires Can(r, SetAddrStep) && r.phase.todo > 0 && r.pend > 0 && r.fin > 0
    requires SameMaps(before, r.slots) && MapsTo(r.slots, index, k, addrs)
    ensures var q := SetOwn(SetAddr(r)); SameMaps(before, q.slots) && MapsTo(q.slots, index, k + 1, addrs)
  {
    var slots := SetOwn(SetAddr(r)).slots;
    forall i | 0 <= i < |slots| ensures slots[i].mapped == r.slots[i].mapped {
    }
  }

  lemma PrepareMaps(r: Ring, addrs: seq<nat>)
    requires r.phase.Torn? && |r.slots| == |r.mbufs| == RING && |addrs| == BATCH
    ensures MapsTo(Prepare(r, addrs).slots, r.mapNext, 0, addrs)
  {
  }

  /** What mapping a batch changes in the slots: ranges of dirty ones, and the mapping. */
  lemma PrepareChanges(r: Ring, addrs: seq<nat>)
    requires r.phase.Torn? && |r.slots| == |r.mbufs| == RING && |addrs| == BATCH
    ensures var q := Prepare(r, addrs);
            && |q.slots| == RING
            && (forall i :: 0 <= i < RING ==>
                  && q.slots[i].own == r.slots[i].own && q.slots[i].addr == r.slots[i].addr
                  && q.slots[i].phy == r.slots[i].phy
                  && q.slots[i].range == if r.mapNext <= i < r.mapNext + BATCH && r.slots[i].phy == 0 then r.mbufs[i]
                                         else r.slots[i].range)
  {
  }

  /** After n passes: what was taken so far, and the slots ahead still hold what they held. */
  ghost predicate Passed(r: Ring, mbufs: seq<nat>, delivered: seq<nat>, at: nat, os: seq<Outcome>, n: nat) {
    && |r.mbufs| == |mbufs| == RING && at < RING && n <= |os| && n <= RING && r.next == Fwd(at, n)
    && (forall j :: n <= j < RING ==> r.mbufs[Fwd(at, j)] == mbufs[Fwd(at, j)])
    && r.delivered == delivered + Taken(mbufs, at, os[..n])
  }

  lemma ProcessMaps(r: Ring, o: Outcome)
    requires r.phase.Looping? && r.next < |r.slots| && r.next < |r.mbufs|
    ensures InUse(Process(r, o).slots) == InUse(r.slots)
  {
    SameInUse(r.slots, Process(r, o).slots);
  }

  lemma PassedOn(r: Ring, mbufs: seq<nat>, delivered: seq<nat>, at: nat, os: seq<Outcome>, n: nat)
    requires Passed(r, mbufs, delivered, at, os, n) && n < |os| && n < RING
    requires r.phase.Looping? && |r.slots| == RING
    ensures Passed(Process(r, os[n]), mbufs, delivered, at, os, n + 1)
  {
    assert os[..n + 1][..n] == os[..n];
    var q := Process(r, os[n]);
    forall j | n + 1 <= j < RING ensures q.mbufs[Fwd(at, j)] == mbufs[Fwd(at, j)] {
      assert Fwd(at, j) != Fwd(at, n);
    }
  }

  class Driver {
    const rxDescArray: array<Desc>
    const rxBufArray: array<Buf>
    const rxMemRange: array<nat>
    var rxNextDescIndex: nat
    var rxMapNextIndex: nat
    ghost var r: Ring

    /** The arrays hold what a protocol state says. */
    ghost predicate Shows(q: Ring)
      reads `rxNextDescIndex, `rxMapNextIndex, rxDescArray, rxBufArray, rxMemRange
    {
      && rxDescArray.Length == rxBufArray.Length == rxMemRange.Length == |q.slots| == |q.mbufs| == RING
      && (forall i :: 0 <= i < RING ==> rxDescArray[i] == Desc(q.slots[i].own, q.slots[i].addr))
      && (forall i :: 0 <= i < RING ==> rxBufArray[i] == Buf(q.mbufs[i], q.slots[i].phy))
      && (forall i :: 0 <= i < RING ==> rxMemRange[i] == q.slots[i].range)
      && rxNextDescIndex == q.next && rxMapNextIndex == q.mapNext
    }

    ghost predicate Valid()
      reads this, rxDescArray, rxBufArray, rxMemRange
    {
      Shows(r) && Inv(r)
    }

    constructor (addrs: seq<nat>)
      requires |addrs| == RING && GoodAddrs(addrs)
      ensures Valid() && r == Init(addrs)
    {
      rxDescArray := new Desc[RING](i requires 0 <= i < RING => Desc(true, addrs[i]));
      rxBufArray := new Buf[RING](i requires 0 <= i < RING => Buf(i, addrs[i]));
      rxMemRange := new nat[RING](i => i);
      rxNextDescIndex, rxMapNextIndex := 0, 0;
      r := Init(addrs);
      new;
      InitInv(addrs);
    }

    /** One finished descriptor: what is left in its slot; `newBuf` is the pool's packet. */
    method ProcessOne(o: Outcome, newBuf: nat)
      requires Valid() && Can(r, ProcessStep(o)) && newBuf == r.made
      modifies this, rxBufArray
      ensures Valid() && r == Process(old(r), o)
    {
      if o == Replaced {
        rxBufArray[rxNextDescIndex] := Buf(newBuf, 0);
      }
      rxNextDescIndex := Inc(rxNextDescIndex);
      ProcessInv(r, o);
      r := Process(r, o);
    }

    /** Take the addresses of replaced buffers into the batch's ranges. */
    method UpdateRanges(index: nat)
      requires rxBufArray.Length == rxMemRange.Length == RING && index + BATCH <= RING
      modifies rxMemRange
      ensures forall j :: 0 <= j < RING ==>
                rxMemRange[j] == if index <= j < index + BATCH && rxBufArray[j].phyAddr == 0 then rxBufArray[j].mbuf
                                 else old(rxMemRange[j])
    {
      var i := index;
      while i < index + BATCH
        invariant index <= i <= index + BATCH
        invariant forall j :: 0 <= j < RING ==>
                    rxMemRange[j] == if index <= j < i && rxBufArray[j].phyAddr == 0 then rxBufArray[j].mbuf
                                     else old(rxMemRange[j])
      {
        if rxBufArray[i].phyAddr == 0 {
          rxMemRange[i] := rxBufArray[i].mbuf;
        }
        i := i + 1;
      }
    }

    /** The mapper's addresses for the part of a batch that is still to be armed. */
    ghost predicate MappedAt(index: nat, k: nat, addrs: seq<nat>)
      reads this
    {
      MapsTo(r.slots, index, k, addrs)
    }

    /** The arrays after the ranges of the batch at `index` were updated. */
    ghost predicate ShowsUpdated(index: nat)
      reads this, rxDescArray, rxBufArray, rxMemRange
    {
      && rxDescArray.Length == rxBufArray.Length == rxMemRange.Length == |r.slots| == |r.mbufs| == RING
      && (forall i :: 0 <= i < RING ==> rxDescArray[i] == Desc(r.slots[i].own, r.slots[i].addr))
      && (forall i :: 0 <= i < RING ==> rxBufArray[i] == Buf(r.mbufs[i], r.slots[i].phy))
      && (forall i :: 0 <= i < RING ==>
            rxMemRange[i] == if index <= i < index + BATCH && r.slots[i].phy == 0 then r.mbufs[i]
                             else r.slots[i].range)
      && rxNextDescIndex == r.next && rxMapNextIndex == r.mapNext
    }

    lemma AcceptShows(index: nat, addrs: seq<nat>)
      requires ShowsUpdated(index) && r.phase.Torn? && index == r.mapNext && |addrs| == BATCH
      ensures Shows(Prepare(r, addrs))
    {
      PrepareChanges(r, addrs);
    }

    /** The mapper maps the batch. */
    ghost method Accept(index: nat, addrs: seq<nat>)
      requires ShowsUpdated(index) && Inv(r) && r.phase.Torn? && index == r.mapNext
      requires Offered(InUse(r.slots), index, addrs)
      modifies `r
      ensures Valid() && r == Prepare(old(r), addrs) && MappedAt(index, 0, addrs)
      ensures InUse(r.slots) == Mapped(old(InUse(r.slots)), index, addrs)
    {
      OfferedUnused(r.slots, index, addrs);
      PrepareInUse(r, addrs);
      PrepareInv(r, addrs);
      AcceptShows(index, addrs);
      PrepareMaps(r, addrs);
      r := Prepare(r, addrs);
    }

    /** The mapper refuses the batch. */
    ghost method Refuse(index: nat)
      requires ShowsUpdated(index) && Inv(r) && r.phase.Torn? && index == r.mapNext
      modifies `r
      ensures Valid() && r == GiveUp(old(r))
    {
      GiveUpInv(r);
      r := GiveUp(r);
    }

    /** Update the ranges of the batch; then the mapper maps it at `addrs`, or refuses when
        there are none. */
    method MapBatch(index: nat, ghost addrs: seq<nat>)
      requires Valid() && r.phase.Torn? && index == r.mapNext
      requires addrs == [] || Offered(InUse(r.slots), index, addrs)
      modifies this, rxMemRange
      ensures Valid() && r.mapNext == index
      ensures r.mbufs == old(r.mbufs) && r.delivered == old(r.delivered) && r.next == old(r.next)
      ensures addrs == [] ==> r.phase.Idle? && r.lost == old(r.lost) + old(r.phase.left)
      ensures addrs != [] ==> && r.phase == Arming(old(r.phase.left), BATCH, false) && r.lost == old(r.lost)
                              && MappedAt(index, 0, addrs)
                              && InUse(r.slots) == Mapped(old(InUse(r.slots)), index, addrs)
      // Mapped or refused, the ranges of replaced buffers of the batch are up to date.
      ensures forall j :: index <= j < index + 16 && rxBufArray[j].phyAddr == 0 ==>
                rxMemRange[j] == rxBufArray[j].mbuf
    {
      UpdateRanges(index);
      if addrs == [] {
        Refuse(index);
      } else {
        Accept(index, addrs);
      }
    }

    /** Nothing but the batch being armed has moved since q. */
    ghost predicate Beside(q: Ring)
      reads this
    {
      && r.mbufs == q.mbufs && r.delivered == q.delivered && r.made == q.made && r.next == q.next && r.lost == q.lost
      && SameMaps(q.slots, r.slots)
    }

    /** Write one new address. */
    method WriteAddress(i: nat, addr: nat)
      requires Valid() && Can(r, SetAddrStep) && i == r.arm && r.slots[i].mapped.value.addr == addr
      modifies this`r, rxDescArray, rxBufArray
      ensures Valid() && r == SetAddr(old(r))
    {
      SetAddrInv(r);
      rxBufArray[i] := rxBufArray[i].(phyAddr := addr);
      rxDescArray[i] := rxDescArray[i].(addr := addr);
      r := SetAddr(r);
    }

    /** Write one new address, then hand the descriptor to the chip. */
    method ArmOne(i: nat, addr: nat)
      requires Valid() && Can(r, SetAddrStep) && i == r.arm && r.slots[i].mapped.value.addr == addr
      modifies this`r, rxDescArray, rxBufArray
      ensures Valid() && r == SetOwn(SetAddr(old(r)))
    {
      WriteAddress(i, addr);
      SetOwnInv(r);
      rxDescArray[i] := rxDescArray[i].(own := true);
      r := SetOwn(r);
    }

    /** Hand all descriptors of a batch to the chip. */
    method ArmBatch(index: nat, addrs: seq<nat>)
      requires Valid() && r.phase.Arming? && r.phase.todo == BATCH && !r.phase.addrSet && index == r.mapNext
      requires |addrs| == BATCH && MappedAt(index, 0, addrs)
      modifies this, rxDescArray, rxBufArray
      ensures Valid() && Beside(old(r)) && r.phase == Arming(old(r.phase.left), 0, false)
      ensures r.mapNext == old(r.mapNext) && r.pend == old(r.pend) - BATCH
    {
      var k := 0;
      while k < BATCH
        invariant 0 <= k <= BATCH
        invariant Valid() && Beside(old(r)) && r.phase == Arming(old(r.phase.left), BATCH - k, false)
        invariant r.mapNext == old(r.mapNext) == index && r.pend == old(r.pend) - k
        invariant MappedAt(index, k, addrs)
      {
        assert r.arm == index + k;
        ArmKeeps(r, old(r.slots), index, k, addrs);
        ArmOne(index + k, addrs[k]);
        k := k + 1;
      }
    }

    /** Unmap the batch; the arrays do not change. */
    ghost method TearDown()
      requires Valid() && Can(r, UnmapStep)
      modifies `r
      ensures Valid() && r == Unmap(old(r)) && r.phase == Torn(old(r.phase.left)) && r.mapNext == old(r.mapNext)
      ensures r.mbufs == old(r.mbufs) && r.delivered == old(r.delivered) && r.next == old(r.next)
      ensures r.lost == old(r.lost)
    {
      UnmapInv(r);
      r := Unmap(r);
    }

    /** The batch is done: on to the next one. */
    method MoveOn(index: nat)
      requires Valid() && Can(r, NextBatchStep) && index == r.mapNext
      modifies this
      ensures Valid() && r == NextBatch(old(r)) && r.mapNext == Fwd(index, BATCH)
      ensures r.phase == Between(old(r.phase.left) - 1)
    {
      NextBatchInv(r);
      rxMapNextIndex := if index + BATCH == RING then 0 else index + BATCH;
      r := NextBatch(r);
    }

    /** One batch of rxMapBuffers. */
    method RemapBatch(index: nat, addrs: seq<nat>)
      requires Valid() && Can(r, UnmapStep) && index == r.mapNext
      requires addrs == [] || Offered(InUse(r.slots), index, addrs)
      modifies this, rxDescArray, rxBufArray, rxMemRange
      ensures Valid() && r.mbufs == old(r.mbufs) && r.delivered == old(r.delivered) && r.next == old(r.next)
      ensures addrs == [] ==> r.phase.Idle? && r.lost == old(r.lost) + old(r.phase.left)
      ensures addrs != [] ==>
                && r.phase == Between(old(r.phase.left) - 1) && r.lost == old(r.lost)
                && r.mapNext == Fwd(index, BATCH)
                && InUse(r.slots) == Mapped(old(InUse(r.slots)), index, addrs)
    {
      if addrs != [] {
        TornOffered(r, addrs);
      }
      TearDown();
      MapBatch(index, addrs);
      if addrs != [] {
        ghost var mapped := r.slots;
        ArmBatch(index, addrs);
        SameInUse(mapped, r.slots);
        MoveOn(index);
      }
    }

    /** The last batch is mapped; the arrays do not change. */
    ghost method Done()
      requires Valid() && r.phase == Between(0)
      modifies `r
      ensures Valid() && r == old(r).(phase := Idle)
    {
      StepInv(r, DoneStep);
      r := r.(phase := Idle);
    }

    /** rxMapBuffers: the mapper maps the first batches at the given addresses, and refuses
        the next one if there are not enough of them. */
    method RxMapBuffers(index: nat, count: nat, addrs: seq<seq<nat>>)
      requires Valid() && r.phase == Between(count) && index == r.mapNext
      requires Offers(InUse(r.slots), index, addrs)
      modifies this, rxDescArray, rxBufArray, rxMemRange
      ensures Valid() && r.phase.Idle?
      ensures r.mbufs == old(r.mbufs) && r.delivered == old(r.delivered) && r.next == old(r.next)
      ensures r.lost == old(r.lost) + if |addrs| >= count then 0 else count - |addrs|
    {
      var batch := count;
      while batch > 0
        invariant 0 <= batch <= count && count - batch <= |addrs|
        invariant Valid() && r.phase == Between(batch) && r.lost == old(r.lost)
        invariant r.mbufs == old(r.mbufs) && r.delivered == old(r.delivered) && r.next == old(r.next)
        invariant Offers(InUse(r.slots), r.mapNext, addrs[count - batch..])
      {
        if count - batch == |addrs| {
          RemapBatch(rxMapNextIndex, []);
          return;
        }
        OffersNext(InUse(r.slots), r.mapNext, addrs, count - batch);
        RemapBatch(rxMapNextIndex, addrs[count - batch]);
        batch := batch - 1;
      }
      Done();
    }

    /** One pass of the loop, with its count of completed batches. */
    method OnePass(o: Outcome, newBuf: nat, numMap: nat) returns (newBuf': nat, numMap': nat)
      requires Valid() && r.phase == Looping(numMap) && newBuf == r.made
      requires !rxDescArray[rxNextDescIndex].own && r.pend < RING
      modifies this, rxBufArray
      ensures Valid() && r == Process(old(r), o) && r.phase == Looping(numMap') && newBuf' == r.made
    {
      numMap' := if rxNextDescIndex % BATCH == BATCH - 1 then numMap + 1 else numMap;
      newBuf' := if o == Replaced then newBuf + 1 else newBuf;
      ProcessOne(o, newBuf);
    }

    /** The own bit of the next descriptor, short of a whole turn. */
    lemma NextOwned()
      requires Valid() && r.phase.Looping?
      ensures r.pend < RING ==> (!rxDescArray[rxNextDescIndex].own <==> r.pend < r.fin)
      ensures r.pend <= r.fin <= RING
    {
      if r.pend < RING {
        LoopTest(r.slots, r.mbufs, r.arm, r.pend, r.fin);
      }
    }

    /** The same, keeping track of what the whole loop has taken. */
    method TrackedPass(outcomes: seq<Outcome>, n: nat, newBuf: nat, numMap: nat,
                       ghost mbufs: seq<nat>, ghost delivered: seq<nat>, ghost at: nat)
      returns (newBuf': nat, numMap': nat)
      requires Valid() && r.phase == Looping(numMap) && newBuf == r.made && n < |outcomes| && n < RING
      requires !rxDescArray[rxNextDescIndex].own && r.pend < RING
      requires Passed(r, mbufs, delivered, at, outcomes, n)
      modifies this, rxBufArray
      ensures Valid() && r.phase == Looping(numMap') && newBuf' == r.made && r.lost == old(r.lost)
      ensures r.fin == old(r.fin) && r.pend == old(r.pend) + 1 && r.pend <= r.fin <= RING
      ensures r.pend < RING ==> (!rxDescArray[rxNextDescIndex].own <==> r.pend < r.fin)
      ensures Passed(r, mbufs, delivered, at, outcomes, n + 1)
      ensures InUse(r.slots) == old(InUse(r.slots)) && rxMapNextIndex == old(rxMapNextIndex)
    {
      ProcessMaps(r, outcomes[n]);
      PassedOn(r, mbufs, delivered, at, outcomes, n);
      newBuf', numMap' := OnePass(outcomes[n], newBuf, numMap);
      NextOwned();
    }

    /** The loop of rxInterruptVTD: it ends at a descriptor the chip still owns, or when its
        packet budget is used up.  One of the two comes before it has gone around the ring. */
    method ProcessAll(outcomes: seq<Outcome>, firstBuf: nat) returns (n: nat, numMap: nat)
      requires Valid() && r.phase == Looping(0) && firstBuf == r.made
      requires r.fin < RING || r.pend + |outcomes| <= RING
      modifies this, rxBufArray
      ensures Valid() && r.phase == Looping(numMap) && r.lost == old(r.lost)
      ensures n <= |outcomes| && r.pend == old(r.pend) + n && r.fin == old(r.fin)
      ensures n == |outcomes| || r.pend == r.fin
      ensures n <= RING && old(r.next) < RING && |old(r.mbufs)| == RING
      ensures rxNextDescIndex == Fwd(old(rxNextDescIndex), n)
      ensures r.delivered == old(r.delivered) + Taken(old(r.mbufs), old(r.next), outcomes[..n])
      ensures InUse(r.slots) == old(InUse(r.slots)) && rxMapNextIndex == old(rxMapNextIndex)
    {
      n, numMap := 0, 0;
      var newBuf := firstBuf;
      NextOwned();
      while n < |outcomes| && !rxDescArray[rxNextDescIndex].own
        invariant Valid() && r.phase == Looping(numMap) && newBuf == r.made && r.lost == old(r.lost)
        invariant n <= |outcomes| && r.fin == old(r.fin) && r.pend == old(r.pend) + n
        invariant r.pend <= r.fin <= RING && (r.pend < RING ==> (!rxDescArray[rxNextDescIndex].own <==> r.pend < r.fin))
        invariant Passed(r, old(r.mbufs), old(r.delivered), old(r.next), outcomes, n)
        invariant InUse(r.slots) == old(InUse(r.slots)) && rxMapNextIndex == old(rxMapNextIndex)
        decreases |outcomes| - n
      {
        newBuf, numMap := TrackedPass(outcomes, n, newBuf, numMap, old(r.mbufs), old(r.delivered), old(r.next));
        n := n + 1;
      }
    }

    /** After the loop: map the batches that are complete. */
    method MapCompleted(numMap: nat, addrs: seq<seq<nat>>)
      requires Valid() && r.phase == Looping(numMap) && Offers(InUse(r.slots), rxMapNextIndex, addrs)
      modifies this, rxDescArray, rxBufArray, rxMemRange
      ensures Valid() && r.phase.Idle?
      ensures r.mbufs == old(r.mbufs) && r.delivered == old(r.delivered) && r.next == old(r.next)
      ensures r.lost == old(r.lost) + if |addrs| >= numMap then 0 else numMap - |addrs|
    {
      StepInv(r, EndStep);
      r := r.(phase := Between(numMap));
      if numMap > 0 {
        RxMapBuffers(rxMapNextIndex, numMap, addrs);
      } else {
        Done();
      }
    }

    /** The call starts; the arrays do not change. */
    ghost method Begin()
      requires Valid() && r.phase.Idle?
      modifies `r
      ensures Valid() && r == old(r).(phase := Looping(0))
    {
      StepInv(r, BeginStep);
      r := r.(phase := Looping(0));
    }

    lemma BatchesFit(numMap: nat)
      requires Valid() && r.phase == Looping(numMap)
      ensures numMap * BATCH <= RING
    {
    }

    lemma IdleRounded()
      requires Valid() && r.phase.Idle?
      ensures r.lost == 0 ==> rxMapNextIndex == rxNextDescIndex - rxNextDescIndex % BATCH
    {
      Rounded(r.next, r.mapNext, r.pend, r.lost);
    }

    /** rxInterruptVTD: process finished descriptors, then map the batches that are complete.
        The loop ends before it has gone around the ring. */
    method RxInterruptVTD(outcomes: seq<Outcome>, firstBuf: nat, addrs: seq<seq<nat>>) returns (n: nat)
      requires Valid() && r.phase.Idle? && firstBuf == r.made
      requires r.fin < RING || r.pend + |outcomes| <= RING
      requires Offers(InUse(r.slots), rxMapNextIndex, addrs)
      modifies this, rxDescArray, rxBufArray, rxMemRange
      ensures Valid() && r.phase.Idle?
      ensures n <= |outcomes| && (n == |outcomes| || n == old(r.fin) - old(r.pend))
      ensures n <= RING && old(r.next) < RING && |old(r.mbufs)| == RING
      ensures r.delivered == old(r.delivered) + Taken(old(r.mbufs), old(r.next), outcomes[..n])
      ensures r.lost == 0 ==> rxMapNextIndex == rxNextDescIndex - rxNextDescIndex % BATCH
      ensures |addrs| * BATCH >= RING ==> r.lost == old(r.lost)
    {
      var numMap;
      Begin();
      n, numMap := ProcessAll(outcomes, firstBuf);
      BatchesFit(numMap);
      MapCompleted(numMap, addrs);
      IdleRounded();
    }

    // ---------------------------------------------------------------- clearRxTxRings

    /** The descriptor loop of rxMapBuffers for the batch at `index`. */
    method ArmForClear(index: nat, addrs: seq<nat>)
      requires rxDescArray.Length == rxBufArray.Length == RING == |addrs| && index + BATCH <= RING
      modifies rxDescArray, rxBufArray
      ensures forall j :: 0 <= j < RING ==>
                rxBufArray[j] == if index <= j < index + BATCH then old(rxBufArray[j]).(phyAddr := addrs[j])
                                 else old(rxBufArray[j])
    {
      var i := index;
      while i < index + BATCH
        invariant index <= i <= index + BATCH
        invariant forall j :: 0 <= j < RING ==>
                    rxBufArray[j] == if index <= j < i then old(rxBufArray[j]).(phyAddr := addrs[j])
                                     else old(rxBufArray[j])
      {
        rxBufArray[i] := rxBufArray[i].(phyAddr := addrs[i]);
        rxDescArray[i] := Desc(true, addrs[i]);
        i := i + 1;
      }
    }

    /** rxMapBuffers over the whole ring: the mapper maps k batches and refuses the next. */
    method MapForClear(addrs: seq<nat>, k: nat)
      requires rxDescArray.Length == rxBufArray.Length == rxMemRange.Length == RING == |addrs| && k <= BATCHES
      modifies rxDescArray, rxBufArray, rxMemRange
      ensures forall j :: 0 <= j < RING ==>
                rxBufArray[j] == if j < BATCH * k then old(rxBufArray[j]).(phyAddr := addrs[j]) else old(rxBufArray[j])
      ensures forall j :: 0 <= j < RING ==>
                rxMemRange[j] == if j < BATCH * k + BATCH && old(rxBufArray[j]).phyAddr == 0
                                 then old(rxBufArray[j]).mbuf else old(rxMemRange[j])
    {
      var b := 0;
      while b < k
        invariant 0 <= b <= k
        invariant forall j :: 0 <= j < RING ==>
                    rxBufArray[j] == if j < BATCH * b then old(rxBufArray[j]).(phyAddr := addrs[j])
                                     else old(rxBufArray[j])
        invariant forall j :: 0 <= j < RING ==>
                    rxMemRange[j] == if j < BATCH * b && old(rxBufArray[j]).phyAddr == 0
                                     then old(rxBufArray[j]).mbuf else old(rxMemRange[j])
      {
        UpdateRanges(BATCH * b);
        ArmForClear(BATCH * b, addrs);
        b := b + 1;
      }
      if k < BATCHES {
        UpdateRanges(BATCH * k);
      }
    }

    /** The loop that arms every descriptor at its phyAddr. */
    method ArmAll()
      requires rxDescArray.Length == rxBufArray.Length == RING
      modifies rxDescArray
      ensures forall j :: 0 <= j < RING ==> rxDescArray[j] == Desc(true, rxBufArray[j].phyAddr)
    {
      for i := 0 to RING
        invariant forall j :: 0 <= j < i ==> rxDescArray[j] == Desc(true, rxBufArray[j].phyAddr)
      {
        rxDescArray[i] := Desc(true, rxBufArray[i].phyAddr);
      }
    }

    /** The receive half of clearRxTxRings. */
    method ClearRxRing(addrs: seq<nat>, k: nat)
      requires Valid() && Can(r, ClearStep(addrs, k))
      modifies this, rxDescArray, rxBufArray, rxMemRange
      ensures Valid() && r == Clear(old(r), addrs, k)
    {
      MapForClear(addrs, k);
      ArmAll();
      rxNextDescIndex, rxMapNextIndex := 0, 0;
      ClearInv(r, addrs, k);
      r := Clear(r, addrs, k);
    }
  }
}
