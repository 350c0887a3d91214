/** txMapPacket as it is written, on the arrays of rtlTxMapInfo. */
module TxMapper {
  import opened TxSizes
  import opened TxMap

  /** An IOMemoryDescriptor: its tag and the ranges it refers to. */
  datatype MemDesc = MemDesc(active: bool, start: nat, count: nat)

  /** How the framework calls go.  `GenFails(k)`: no device address for segment k. */
  datatype Outcome = Succeeds | InitFails | PrepareFails | SetFails | GenFails(k: nat)

  class TxMapInfo {
    const page: nat
    const txMemIO: array<MemDesc>
    const txMemRange: array<Range>
    const txSCRange: array<Range>
    var txNextMem2Use: nat
    var txNumFreeMem: int

    ghost predicate Valid()
      reads this
    {
      && page > 0 && txNextMem2Use < MEMS
      && txMemIO.Length == MEMS && txMemRange.Length == RANGES && txSCRange.Length == MAX_SEGS
      && txMemRange != txSCRange
    }

    /** setupTxMap. */
    constructor (page: nat)
      requires page > 0
      ensures Valid() && this.page == page && txNextMem2Use == 0 && txNumFreeMem == MEMS
      ensures forall i :: 0 <= i < MEMS ==> !txMemIO[i].active
    {
      this.page := page;
      txMemIO := new MemDesc[MEMS](i => MemDesc(false, 0, 0));
      txMemRange := new Range[RANGES](i => Range(0, 0));
      txSCRange := new Range[MAX_SEGS](i => Range(0, 0));
      txNextMem2Use, txNumFreeMem := 0, MEMS;
    }

    /** The inner loop: cut one buffer, behind the n segments already there. */
    method SplitOne(data: nat, length: nat, n0: nat, maxSegs: nat) returns (n: nat, fits: bool)
      requires Valid() && n0 <= maxSegs <= MAX_SEGS
      modifies txSCRange
      ensures fits <==> n0 + |SplitBuffer(page, data, length)| <= maxSegs
      ensures fits ==> n == n0 + |SplitBuffer(page, data, length)|
      ensures fits ==> txSCRange[..n] == old(txSCRange[..n0]) + SplitBuffer(page, data, length)
    {
      n := n0;
      var d: nat, len: nat := data, length;
      while len > 0
        invariant n0 <= n <= maxSegs
        invariant txSCRange[..n] + SplitBuffer(page, d, len) == old(txSCRange[..n0]) + SplitBuffer(page, data, length)
        decreases len
      {
        PieceBounds(page, d, len);
        var l := Piece(page, d, len);
        if n >= maxSegs {
          assert |txSCRange[..n] + SplitBuffer(page, d, len)| > maxSegs;
          return 0, false;
        }
        txSCRange[n] := Range(d, l);
        n := n + 1;
        d := d + l;
        len := len - l;
      }
      fits := true;
    }

    /** Cutting the j-th buffer behind the segments already there. */
    static lemma NextBuffer(page: nat, chain: seq<Mbuf>, j: nat, done: seq<Range>)
      requires page > 0 && j < |chain|
      ensures var one := SplitBuffer(page, chain[j].data, chain[j].len);
              && (done + one) + SplitChain(page, chain[j + 1..]) == done + SplitChain(page, chain[j..])
              && |done| + |one| <= |done + SplitChain(page, chain[j..])|
    {
      assert chain[j..][1..] == chain[j + 1..];
    }

    /** The general loop: cut every buffer of the chain. */
    method SplitAll(chain: seq<Mbuf>, maxSegs: nat) returns (n: nat, fits: bool)
      requires Valid() && 1 <= maxSegs <= MAX_SEGS
      modifies txSCRange
      ensures fits <==> |SplitChain(page, chain)| <= maxSegs
      ensures fits ==> n == |SplitChain(page, chain)| && txSCRange[..n] == SplitChain(page, chain)
    {
      n := 0;
      var j := 0;
      while j < |chain|
        invariant j <= |chain| && n <= maxSegs
        invariant txSCRange[..n] + SplitChain(page, chain[j..]) == SplitChain(page, chain)
      {
        NextBuffer(page, chain, j, txSCRange[..n]);
        n, fits := SplitOne(chain[j].data, chain[j].len, n, maxSegs);
        if !fits {
          return 0, false;
        }
        j := j + 1;
      }
      fits := true;
    }

    /** Cut the packet into segments.  `fits` says whether at most maxSegs are needed. */
    method Split(chain: seq<Mbuf>, maxSegs: nat) returns (n: nat, fits: bool)
      requires Valid() && 1 <= maxSegs <= MAX_SEGS && chain != []
      modifies txSCRange
      ensures fits <==> |Segments(page, chain)| <= maxSegs
      ensures fits ==> n == |Segments(page, chain)| && txSCRange[..n] == Segments(page, chain)
    {
      if OnePage(page, chain) {
        txSCRange[0] := Range(chain[0].data, chain[0].len);
        return 1, true;
      }
      n, fits := SplitAll(chain, maxSegs);
    }

    /** Record the pages to map and keep only the offsets of the segments. */
    method RecordPages(n: nat, next: nat)
      requires Valid() && n <= MAX_SEGS && next < RING
      modifies txMemRange, txSCRange
      ensures txMemRange[next..next + n] == Pages(page, old(txSCRange[..n]))
      ensures forall i :: 0 <= i < RANGES && !(next <= i < next + n) ==> txMemRange[i] == old(txMemRange[i])
      ensures forall i :: 0 <= i < n ==> txSCRange[i] == InPage(page, old(txSCRange[i]))
    {
      ghost var pages := Pages(page, txSCRange[..n]);
      for i := 0 to n
        invariant forall k :: next <= k < next + i ==> txMemRange[k] == pages[k - next]
        invariant forall k :: 0 <= k < RANGES && !(next <= k < next + i) ==> txMemRange[k] == old(txMemRange[k])
        invariant forall k :: 0 <= k < i ==> txSCRange[k] == InPage(page, old(txSCRange[k]))
        invariant forall k :: i <= k < n ==> txSCRange[k] == old(txSCRange[k])
      {
        txMemRange[next + i] := PageOf(page, txSCRange[i]);
        txSCRange[i] := InPage(page, txSCRange[i]);
      }
    }

    /** Ask for device addresses and fill in the vector; stops at a segment without one. */
    method FillVector(n: nat, vector: array<Range>, iova: nat -> nat, stop: nat)
      requires Valid() && n <= MAX_SEGS && n <= vector.Length && vector != txSCRange && stop <= n
      modifies vector
      ensures forall i :: 0 <= i < stop ==>
                vector[i] == Range(iova(i) + txSCRange[i].address, txSCRange[i].length)
      ensures forall i :: stop <= i < vector.Length ==> vector[i] == old(vector[i])
    {
      for i := 0 to stop
        invariant forall k :: 0 <= k < i ==> vector[k] == Range(iova(k) + txSCRange[k].address, txSCRange[k].length)
        invariant forall k :: i <= k < vector.Length ==> vector[k] == old(vector[k])
      {
        vector[i] := Range(iova(i) + txSCRange[i].address, txSCRange[i].length);
      }
    }

    ghost function Addresses(iova: nat -> nat, n: nat): seq<nat> {
      seq(n, i requires 0 <= i < n => iova(i))
    }

    /** Take the next memory descriptor and map the n segments found; `segs` is what they are. */
    method MapSegments(n: nat, vector: array<Range>, next: nat, outcome: Outcome, iova: nat -> nat,
                       ghost segs: seq<Range>) returns (ok: bool)
      requires Valid() && n == |segs| <= MAX_SEGS && n <= vector.Length && next < RING
      requires vector != txSCRange && vector != txMemRange && txSCRange[..n] == segs
      requires outcome.GenFails? ==> outcome.k < n
      modifies this, txMemIO, txMemRange, txSCRange, vector
      ensures Valid() && (ok <==> outcome.Succeeds?)
      ensures ok ==>
                && vector[..n] == Vector(page, segs, Addresses(iova, n))
                && txNumFreeMem == old(txNumFreeMem) - 1
                && txNextMem2Use == (old(txNextMem2Use) + 1) % MEMS
                && txMemIO[..] == old(txMemIO[..])[old(txNextMem2Use) := MemDesc(true, next, n)]
      ensures !ok ==>
                && txNumFreeMem == old(txNumFreeMem) && txNextMem2Use == old(txNextMem2Use)
                && (forall i :: 0 <= i < MEMS && i != txNextMem2Use ==> txMemIO[i] == old(txMemIO[i]))
                && txMemIO[txNextMem2Use].active == (outcome.GenFails? || old(txMemIO[txNextMem2Use].active))
      ensures txMemRange[next..next + n] == Pages(page, segs)
      ensures forall i :: 0 <= i < RANGES && !(next <= i < next + n) ==> txMemRange[i] == old(txMemRange[i])
    {
      RecordPages(n, next);
      txNumFreeMem := txNumFreeMem - 1;
      var saveMem := txNextMem2Use;
      txNextMem2Use := (txNextMem2Use + 1) % MEMS;
      var failed := outcome.InitFails?;
      if !failed {
        txMemIO[saveMem] := MemDesc(txMemIO[saveMem].active, next, n);
        failed := outcome.PrepareFails? || outcome.SetFails?;
      }
      if !failed {
        txMemIO[saveMem] := MemDesc(true, next, n);
        FillVector(n, vector, iova, if outcome.GenFails? then outcome.k else n);
        failed := outcome.GenFails?;
      }
      if failed {
        txNextMem2Use := saveMem;
        txNumFreeMem := txNumFreeMem + 1;
      }
      ok := !failed;
    }

    /** txMapPacket, for a packet that will take descriptors from index `next` on. */
    method TxMapPacket(chain: seq<Mbuf>, vector: array<Range>, maxSegs: nat, next: nat,
                       outcome: Outcome, iova: nat -> nat) returns (n: nat)
      requires Valid() && chain != [] && maxSegs <= MAX_SEGS && maxSegs <= vector.Length && next < RING
      requires vector != txSCRange && vector != txMemRange
      requires outcome.GenFails? ==> outcome.k < |Segments(page, chain)|
      modifies this, txMemIO, txMemRange, txSCRange, vector
      ensures Valid() && n <= maxSegs
      // Too many segments, or none allowed: nothing is mapped.
      ensures |Segments(page, chain)| > maxSegs || maxSegs == 0 ==>
                n == 0 && txNumFreeMem == old(txNumFreeMem) && txNextMem2Use == old(txNextMem2Use)
                && txMemIO[..] == old(txMemIO[..]) && vector[..] == old(vector[..])
      // Out of memory descriptors: the count is returned, but the vector is not filled in.
      ensures 0 < maxSegs && |Segments(page, chain)| <= maxSegs && old(txNumFreeMem) <= 1 ==>
                n == |Segments(page, chain)| && vector[..] == old(vector[..])
                && txNumFreeMem == old(txNumFreeMem) && txNextMem2Use == old(txNextMem2Use)
                && txMemIO[..] == old(txMemIO[..])
      // Success: pages, memory descriptor and vector are those of the packet, and the device
      // reads the packet's bytes through them.
      ensures 0 < maxSegs && |Segments(page, chain)| <= maxSegs && old(txNumFreeMem) > 1 && outcome.Succeeds? ==>
                && n == |Segments(page, chain)|
                && vector[..n] == Vector(page, Segments(page, chain), Addresses(iova, n))
                && ReadsAs(vector[..n], txMemRange[next..next + n], Addresses(iova, n), chain)
                && txNumFreeMem == old(txNumFreeMem) - 1
                && txNextMem2Use == (old(txNextMem2Use) + 1) % MEMS
                && txMemIO[..] == old(txMemIO[..])[old(txNextMem2Use) := MemDesc(true, next, n)]
      // Failure: the ring of memory descriptors is as before, except that a missing device
      // address leaves the descriptor tagged active.
      ensures 0 < maxSegs && |Segments(page, chain)| <= maxSegs && old(txNumFreeMem) > 1 && !outcome.Succeeds? ==>
                && n == 0
                && txNumFreeMem == old(txNumFreeMem) && txNextMem2Use == old(txNextMem2Use)
                && (forall i :: 0 <= i < MEMS && i != txNextMem2Use ==> txMemIO[i] == old(txMemIO[i]))
                && txMemIO[txNextMem2Use].active == (outcome.GenFails? || old(txMemIO[txNextMem2Use].active))
      // Whenever a memory descriptor was taken, also if it was given back, the pages of the
      // packet are in the range array; otherwise nothing is written to it.
      ensures 0 < maxSegs && |Segments(page, chain)| <= maxSegs && old(txNumFreeMem) > 1 ==>
                txMemRange[next..next + |Segments(page, chain)|] == Pages(page, Segments(page, chain))
      ensures |Segments(page, chain)| > maxSegs || maxSegs == 0 || old(txNumFreeMem) <= 1 ==>
                txMemRange[..] == old(txMemRange[..])
      // Other ranges keep their contents.
      ensures forall i :: 0 <= i < RANGES && !(next <= i < next + |Segments(page, chain)|) ==>
                txMemRange[i] == old(txMemRange[i])
    {
      if maxSegs == 0 {
        return 0;
      }
      var fits;
      n, fits := Split(chain, maxSegs);
      if !fits {
        return 0;
      }
      if txNumFreeMem > 1 {
        var ok := MapSegments(n, vector, next, outcome, iova, Segments(page, chain));
        VectorReadsAs(page, chain, Addresses(iova, n));
        if !ok {
          n := 0;
        }
      }
    }
  }
}
