/**
 outputStart, txInterrupt and the transmit half of clearRxTxRings as they are written, on
 the driver's own arrays and variables, proved against the calls of TxCalls.  The ghost
 state `s` is the protocol state the variables are part of.
 */
module TxDriver {
  import opened Options
  import opened TxSizes
  import opened TxModel
  import opened TxCalls

  class Driver {
    const cfg: Config
    const txDescArray: array<Desc>
    const txMbufArray: array<Option<Packet>>
    const txMemIO: array<Mem>
    var txNextDescIndex: nat
    var txDirtyDescIndex: nat
    var txTailPtr0: nat
    var txClosePtr0: nat
    var txNumFreeDesc: int
    var txNextMem2Use: nat
    var txNextMem2Free: nat
    var txNumFreeMem: int
    var tailRegister: nat
    var txDescDoneCount: nat
    ghost var s: State

    ghost function RingVars(): Ring
      reads this, txDescArray, txMbufArray
    {
      Ring(txDescArray[..], txMbufArray[..], txNextDescIndex, txDirtyDescIndex,
           txTailPtr0, txClosePtr0, txNumFreeDesc)
    }

    ghost function MemVars(): MemRing
      reads this, txMemIO
    {
      MemRing(txNextMem2Use, txNextMem2Free, txNumFreeMem, txMemIO[..])
    }

    /** The ghost state agrees with the variables. */
    ghost predicate Valid()
      reads this, txDescArray, txMbufArray, txMemIO
    {
      && txDescArray.Length == RING && txMbufArray.Length == RING && txMemIO.Length == MEMS
      && s.ring == RingVars() && s.mem == MemVars() && s.dev.tail == tailRegister
      && Sized(s)
    }

    /** setupTxResources and setupTxMap. */
    constructor (cfg: Config)
      ensures Valid() && s == Init() && this.cfg == cfg
    {
      this.cfg := cfg;
      txDescArray := new Desc[RING](i requires 0 <= i < RING => EmptyDesc(i));
      txMbufArray := new Option<Packet>[RING](i => None);
      txMemIO := new Mem[MEMS](i => Inactive);
      txNextDescIndex, txDirtyDescIndex, txTailPtr0, txClosePtr0, txNumFreeDesc := 0, 0, 0, 0, RING;
      txNextMem2Use, txNextMem2Free, txNumFreeMem, tailRegister := 0, 0, MEMS, 0;
      txDescDoneCount := 0;
      s := Init();
      new;
      assert txDescArray[..] == Init().ring.desc && txMbufArray[..] == Init().ring.mbuf && txMemIO[..] == Init().mem.io;
    }

    // ---------------------------------------------------------------- outputStart

    /** The descriptor loop of outputStart: fill in the claimed descriptors, the first one
        without its own bit, then hand over the first one. */
    method FillDescriptors(q: Queued, first: nat)
      requires Valid() && 1 <= |q.segs| && first < RING
      requires s.out == Filling(q, first, first, 0, false)
      modifies this`s, txDescArray, txMbufArray
      ensures Valid() && s == Fill(old(s))
    {
      var index: nat := first;
      var i := 0;
      while i < |q.segs|
        invariant 0 <= i <= |q.segs| && index < RING && Valid()
        invariant i < |q.segs| ==>
                    s.out == Filling(q, first, index, i, false) && Fill(s) == Fill(old(s))
        invariant i == |q.segs| ==> s.out == Owning(q, first) && GiveFirst(s) == Fill(old(s))
      {
        txMbufArray[index] := if i == |q.segs| - 1 then Some(q.pkt) else None;
        txDescArray[index] := Desc(q.segs[i].location, q.opts.opts2, q.segs[i].length, q.opts.cmd,
                                   i != 0, i == 0, i == |q.segs| - 1, index == RING - 1);
        s := StoreDesc(StoreMbuf(s));
        index := Skip(index, 1);
        i := i + 1;
      }
      txDescArray[first] := txDescArray[first].(own := true);
      s := GiveFirst(s);
    }

    /** txMapPacket's bookkeeping: take the next memory descriptor while more than one is free,
        and give it back if the mapping fails.  Returns the number of segments. */
    method GrabMemory(m: Packet, req: Request) returns (numSegs: nat)
      requires Valid() && Fit(req) && s.out == Holding(m, req.opts)
      modifies this`txNumFreeMem, this`txNextMem2Use, txMemIO
      ensures txNextMem2Use < MEMS && numSegs == if req.mapping.Fails? && txNumFreeMem > 1 then 0 else |req.segs|
      ensures MemVars() ==
                if req.mapping.TooLong? then s.mem
                else if req.mapping.Works? then Grab(s.mem, m, txNextDescIndex, |req.segs|)
                else if s.mem.numFree > 1 then Fail(s, |req.segs|, req.mapping.tagged).mem
                else s.mem
    {
      numSegs := |req.segs|;
      if !req.mapping.TooLong? && txNumFreeMem > 1 {
        txNumFreeMem := txNumFreeMem - 1;
        var saveMem := txNextMem2Use;
        txNextMem2Use := (txNextMem2Use + 1) % MEMS;
        if req.mapping != Fails(false) {
          txMemIO[saveMem] := Active(m, txNextDescIndex, |req.segs|);
        }
        if req.mapping.Fails? {
          txNextMem2Use := saveMem;
          txNumFreeMem := txNumFreeMem + 1;
          numSegs := 0;
        }
      }
    }

    /** Claim the descriptors of a mapped packet. */
    method ClaimDescriptors(numSegs: nat) returns (index: nat)
      requires Valid() && s.out.Mapped? && numSegs == |s.out.segs| <= MAX_SEGS
      modifies this
      ensures Valid() && s == Claim(old(s)) && index == old(txNextDescIndex)
    {
      txNumFreeDesc := txNumFreeDesc - numSegs;
      index := txNextDescIndex;
      txNextDescIndex := Skip(txNextDescIndex, numSegs);
      txTailPtr0 := (txTailPtr0 + numSegs) % WORD;
      s := Claim(s);
    }

    /** Get the segments of a packet just dequeued, from txMapPacket or the mbuf cursor; the
        protocol moves on to Mapped, or drops it. */
    method GetSegments(m: Packet, req: Request) returns (numSegs: nat)
      requires Valid() && Fit(req) && s.out == Holding(m, req.opts)
      modifies this`txNumFreeMem, this`txNextMem2Use, this`s, txMemIO
      ensures Valid() && numSegs == if Goes(cfg, old(s), req) then |req.segs| else 0
      ensures s == if Goes(cfg, old(s), req) then Map(cfg, old(s), req.segs)
                   else if !Tried(cfg, old(s), req) then Drop(old(s))
                   else if req.mapping.Fails? then Fail(old(s), |req.segs|, req.mapping.tagged)
                   else Lose(old(s))
    {
      if cfg.vtd {
        numSegs := GrabMemory(m, req);
      } else {
        numSegs := if req.mapping.Works? then |req.segs| else 0;
      }
      if numSegs > 0 {
        s := Map(cfg, s, req.segs);
      } else if !Tried(cfg, s, req) {
        s := Drop(s);
      } else if req.mapping.Fails? {
        s := Fail(s, |req.segs|, req.mapping.tagged);
      } else {
        s := Lose(s);
      }
    }

    /** One turn of outputStart's loop; m is the packet just dequeued. */
    method QueuePacket(m: Packet, req: Request)
      requires Valid() && Fit(req) && CanDequeue(s) && m == s.log.dequeued
      modifies this, txDescArray, txMbufArray, txMemIO
      ensures Valid() && s == Queue(cfg, old(s), req)
      ensures var goes := req.segs != [] && (req.mapping.Works? || (cfg.vtd && old(txNumFreeMem) <= 1));
              && s.log.queue == old(s.log.queue) + (if goes then [Queued(m, req.opts, req.segs)] else [])
              && s.log.freed == old(s.log.freed) + (if goes then [] else [m])
              && txNumFreeDesc == old(txNumFreeDesc) - (if goes then |req.segs| else 0)
    {
      s := Dequeue(s, req.opts);
      var numSegs := GetSegments(m, req);
      if numSegs > 0 {
        var index := ClaimDescriptors(numSegs);
        FillDescriptors(Queued(m, req.opts, req.segs), index);
      }
    }

    /** The loop of outputStart. */
    method TakePackets(reqs: seq<Request>, first: Packet) returns (taken: nat)
      requires Valid() && s.out.Ready? && Fits(reqs) && first == s.log.dequeued
      modifies this, txDescArray, txMbufArray, txMemIO
      ensures Valid() && s.out.Ready? && s == Output(cfg, old(s), reqs) && s.log.dequeued == first + taken
      ensures taken <= |reqs| && (taken == |reqs| || txNumFreeDesc < 36)
    {
      taken := 0;
      while txNumFreeDesc > MAX_SEGS + 3 && taken < |reqs|
        invariant taken <= |reqs| && Valid() && s.out.Ready? && s.log.dequeued == first + taken
        invariant Output(cfg, s, reqs[taken..]) == Output(cfg, old(s), reqs)
        decreases |reqs| - taken
      {
        QueuePacket(first + taken, reqs[taken]);
        assert reqs[taken..][1..] == reqs[taken + 1..];
        taken := taken + 1;
      }
    }

    /** rtl812xDoorbell. */
    method RingDoorbell()
      requires Valid()
      modifies this`tailRegister, this`s
      ensures Valid() && s == Doorbell(cfg, old(s))
      ensures s.log.announced == |s.log.queue| && s.log.rung == |s.log.hist|
    {
      tailRegister := Wrap(cfg.width, txTailPtr0);
      s := Doorbell(cfg, s);
    }

    /** outputStart: if the interface is up, take packets while enough descriptors are free,
        then ring the doorbell; `ready` is the status returned, kIOReturnSuccess or
        kIOReturnNoResources.  `reqs` is what the stack has queued, `first` its first packet. */
    method OutputStart(up: bool, reqs: seq<Request>, first: Packet) returns (taken: nat, ready: bool)
      requires Valid() && s.out.Ready? && Fits(reqs) && first == s.log.dequeued
      modifies this, txDescArray, txMbufArray, txMemIO
      ensures Valid() && s == if up then Doorbell(cfg, Output(cfg, old(s), reqs)) else old(s)
      ensures up ==> taken <= |reqs| && (taken == |reqs| || txNumFreeDesc < 36)
      ensures s.log.dequeued == first + taken
      ensures ready <==> up && txNumFreeDesc >= 36
      // What was added to the queue are the first `taken` of the requests, in order.
      ensures old(s.log.queue) <= s.log.queue
      ensures QueuedFrom(cfg.vtd, s.log.queue[|old(s.log.queue)|..], reqs, first, taken)
      // All of it is announced.
      ensures up ==> s.log.announced == |s.log.queue| && s.log.rung == |s.log.hist|
    {
      taken, ready := 0, false;
      if !up {
        return;
      }
      ghost var added := TakesInOrder(cfg, s, reqs);
      taken := TakePackets(reqs, first);
      RingDoorbell();
      ready := txNumFreeDesc > MAX_SEGS + 3;
    }

    // ---------------------------------------------------------------- txInterrupt

    /** txUnmapPacket. */
    method TxUnmapPacket()
      requires Valid()
      modifies this`txNumFreeMem, this`txNextMem2Free, txMemIO
      ensures txNextMem2Free < MEMS && MemVars() == Ungrab(old(s.mem))
    {
      txMemIO[txNextMem2Free] := Inactive;
      txNextMem2Free := (txNextMem2Free + 1) % MEMS;
      txNumFreeMem := txNumFreeMem + 1;
    }

    /** Unmap and free the packet whose last descriptor is being released. */
    method GiveBack()
      requires Valid() && At(s, Cleared) && s.irq.m.Some?
      modifies this`s, this`txNumFreeMem, this`txNextMem2Free, txMemIO
      ensures Valid() && s == Free(if cfg.vtd then Unmap(old(s)) else old(s))
    {
      if cfg.vtd {
        TxUnmapPacket();
        s := Unmap(s);
      }
      s := Free(s);
    }

    /** One turn of txInterrupt's loop: release the descriptor at the dirty index. */
    method ReleaseDescriptor() returns (m: Option<Packet>)
      requires Valid() && At(s, Scan)
      modifies this, txMbufArray, txMemIO
      ensures Valid() && s == ReleaseOne(cfg, old(s)) && m == old(txMbufArray[txDirtyDescIndex])
      ensures txDescDoneCount == old(txDescDoneCount) + 1
    {
      m := txMbufArray[txDirtyDescIndex];
      txMbufArray[txDirtyDescIndex] := None;
      s := ClearSlot(Take(s));
      if m.Some? {
        GiveBack();
      }
      txDescDoneCount := txDescDoneCount + 1;
      txNumFreeDesc := txNumFreeDesc + 1;
      txDirtyDescIndex := Skip(txDirtyDescIndex, 1);
      s := Advance(Release(s));
    }

    /** txInterrupt: release as many descriptors as the close pointer has advanced; `freed`
        are the packets given back, in order, `signal` whether the output thread is woken. */
    method TxInterrupt(nextClosePtr: nat) returns (freed: seq<Packet>, signal: bool)
      requires Valid() && CanReadClose(cfg, s, nextClosePtr)
      modifies this, txMbufArray, txMemIO
      ensures Valid() && s == ReleaseAll(cfg, ReadClose(cfg, old(s), nextClosePtr))
      ensures s.log.done == old(s.log.done) + NumDone(cfg, nextClosePtr, old(txClosePtr0))
      ensures txDescDoneCount == old(txDescDoneCount) + NumDone(cfg, nextClosePtr, old(txClosePtr0))
      ensures s.log.completed == old(s.log.completed) + freed
      ensures signal <==> txDirtyDescIndex != old(txDirtyDescIndex) && txNumFreeDesc > RING / 10
    {
      var oldDirtyIndex := txDirtyDescIndex;
      var numDone := Wrap(cfg.width, (nextClosePtr - txClosePtr0) % WORD);
      txClosePtr0 := nextClosePtr;
      s := ReadClose(cfg, s, nextClosePtr);
      freed := [];
      ghost var end, total := s.log.done + numDone, txDescDoneCount + numDone;
      while numDone > 0
        invariant Valid() && s.irq == Busy(numDone, None, Scan)
        invariant ReleaseAll(cfg, s) == ReleaseAll(cfg, ReadClose(cfg, old(s), nextClosePtr))
        invariant s.log.done + numDone == end && txDescDoneCount + numDone == total
        invariant s.log.completed == old(s.log.completed) + freed
      {
        var m := ReleaseDescriptor();
        if m.Some? {
          freed := freed + [m.value];
        }
        numDone := numDone - 1;
      }
      s := s.(irq := Idle);
      signal := oldDirtyIndex != txDirtyDescIndex && txNumFreeDesc > WAKE;
    }

    // ---------------------------------------------------------------- clearRxTxRings

    /** The loop over the memory descriptors. */
    method ClearMemory()
      requires txMemIO.Length == MEMS
      modifies txMemIO
      ensures txMemIO[..] == EmptyMem().io
    {
      for i := 0 to MEMS
        invariant forall k :: 0 <= k < i ==> txMemIO[k] == Inactive
      {
        txMemIO[i] := Inactive;
      }
    }

    /** The loop over descriptors and packets. */
    method ClearSlots() returns (freed: seq<Packet>)
      requires txDescArray.Length == RING && txMbufArray.Length == RING
      modifies txDescArray, txMbufArray
      ensures freed == Somes(old(txMbufArray[..]))
      ensures txMbufArray[..] == seq(RING, i => None)
      ensures txDescArray[..] == ClearedDescs(old(txDescArray[..]))
    {
      ghost var mbuf, desc := txMbufArray[..], txDescArray[..];
      freed := [];
      for i := 0 to RING
        invariant forall k :: 0 <= k < RING ==> txMbufArray[k] == if k < i then None else mbuf[k]
        invariant forall k :: 0 <= k < RING ==> txDescArray[k] == if k < i then ClearedDescs(desc)[k] else desc[k]
        invariant freed == Somes(mbuf[..i])
      {
        txDescArray[i] := Desc(txDescArray[i].addr, txDescArray[i].opts2, 0, 0, false, false, false, i == RING - 1);
        var m := txMbufArray[i];
        assert mbuf[..i + 1][..i] == mbuf[..i];
        if m.Some? {
          freed := freed + [m.value];
          txMbufArray[i] := None;
        }
      }
      assert mbuf[..RING] == mbuf;
    }

    /** The transmit half of clearRxTxRings: free what the slots hold and start over. */
    method ClearTxRing() returns (freed: seq<Packet>)
      requires Valid() && CanClear(s)
      modifies this, txDescArray, txMbufArray, txMemIO
      ensures Valid() && s == Clear(old(s)) && freed == Somes(old(txMbufArray[..]))
    {
      ClearMemory();
      freed := ClearSlots();
      txTailPtr0, txClosePtr0 := 0, 0;
      txDirtyDescIndex, txNextDescIndex := 0, 0;
      txNumFreeDesc := RING;
      txNextMem2Use, txNextMem2Free, txNumFreeMem := 0, 0, MEMS;
      tailRegister := 0;
      s := Clear(s);
    }
  }
}
