/**
 txMapPacket: cut a packet at page boundaries, map the pages for the device and hand the
 device addresses to the caller.  Stated down to the bytes the device will read.
 */
module TxMap {
  import opened Arithmetic

  /** One buffer of a packet: the virtual address and length of its data. */
  datatype Mbuf = Mbuf(data: nat, len: nat)

  /** An IOAddressRange, or a physical segment. */
  datatype Range = Range(address: nat, length: nat)

  type Byte = x: int | 0 <= x < 256

  // ---------------------------------------------------------------- pages

  function TruncPage(page: nat, a: int): int
    requires page > 0
  {
    a - a % page
  }

  function NextPage(page: nat, a: nat): int
    requires page > 0
  {
    TruncPage(page, a + page)
  }

  function Min(a: int, b: int): int {
    if a < b then a else b
  }

  /** How much of `len` bytes at d lies before the next page boundary, as the source
      computes it. */
  function Piece(page: nat, d: nat, len: nat): int
    requires page > 0
  {
    Min(NextPage(page, d), d + Min(len, page)) - d
  }

  lemma PieceBounds(page: nat, d: nat, len: nat)
    requires page > 0 && len > 0
    ensures 0 < Piece(page, d, len) <= len
    ensures d % page + Piece(page, d, len) <= page
    ensures Piece(page, d, len) == Min(len, page - d % page)
  {
    assert NextPage(page, d) == d + page - d % page by {
      ModPage(page, d);
    }
  }

  lemma ModPage(page: nat, d: nat)
    requires page > 0
    ensures (d + page) % page == d % page
  {
    var q, r := d / page, d % page;
    assert d + page == (q + 1) * page + r;
    DivModUnique(page, q + 1, r, d + page);
  }

  // ---------------------------------------------------------------- cutting a packet

  /** The pieces of one buffer. */
  function SplitBuffer(page: nat, d: nat, len: nat): seq<Range>
    requires page > 0
    decreases len
  {
    if len == 0 then []
    else
      PieceBounds(page, d, len);
      var l := Piece(page, d, len);
      [Range(d, l)] + SplitBuffer(page, d + l, len - l)
  }

  /** The pieces of all buffers of a packet. */
  function SplitChain(page: nat, chain: seq<Mbuf>): seq<Range>
    requires page > 0
  {
    if chain == [] then []
    else SplitBuffer(page, chain[0].data, chain[0].len) + SplitChain(page, chain[1..])
  }

  /** A packet in one buffer inside one page is taken as it is. */
  predicate OnePage(page: nat, chain: seq<Mbuf>)
    requires page > 0
  {
    && |chain| == 1
    && TruncPage(page, chain[0].data) == TruncPage(page, chain[0].data + chain[0].len - 1)
  }

  /** What txMapPacket takes as the segments of a packet. */
  function Segments(page: nat, chain: seq<Mbuf>): seq<Range>
    requires page > 0
  {
    if OnePage(page, chain) then [Range(chain[0].data, chain[0].len)] else SplitChain(page, chain)
  }

  /** Non-empty and within one page. */
  predicate InOnePage(page: nat, r: Range)
    requires page > 0
  {
    r.length > 0 && r.address % page + r.length <= page
  }

  lemma {:induction false} SplitBufferInPages(page: nat, d: nat, len: nat)
    requires page > 0
    ensures forall r :: r in SplitBuffer(page, d, len) ==> InOnePage(page, r)
    decreases len
  {
    if len > 0 {
      PieceBounds(page, d, len);
      var l := Piece(page, d, len);
      SplitBufferInPages(page, d + l, len - l);
    }
  }

  lemma {:induction false} SplitChainInPages(page: nat, chain: seq<Mbuf>)
    requires page > 0
    ensures forall r :: r in SplitChain(page, chain) ==> InOnePage(page, r)
  {
    if chain != [] {
      SplitBufferInPages(page, chain[0].data, chain[0].len);
      SplitChainInPages(page, chain[1..]);
    }
  }

  lemma SamePage(page: nat, d: nat, len: nat)
    requires page > 0 && len > 0
    ensures TruncPage(page, d) == TruncPage(page, d + len - 1) <==> d % page + len <= page
  {
    var r := d % page + len - 1;
    if r < page {
      assert d + len - 1 == (d / page) * page + r;
      DivModUnique(page, d / page, r, d + len - 1);
    }
  }

  /** When the short cut is taken: for one buffer whose bytes lie in one page, or that is empty
      and does not start on a page boundary. */
  lemma OnePageMeans(page: nat, chain: seq<Mbuf>)
    requires page > 0
    ensures OnePage(page, chain) <==>
            && |chain| == 1
            && if chain[0].len > 0 then chain[0].data % page + chain[0].len <= page else chain[0].data % page != 0
  {
    if |chain| == 1 {
      var d, len := chain[0].data, chain[0].len;
      if len > 0 {
        SamePage(page, d, len);
      } else {
        BeforePage(page, d);
      }
    }
  }

  lemma BeforePage(page: nat, d: nat)
    requires page > 0
    ensures TruncPage(page, d) == TruncPage(page, d - 1) <==> d % page != 0
  {
    var q, r := d / page, d % page;
    if r != 0 {
      DivModUnique(page, q, r - 1, d - 1);
    } else {
      assert d - 1 == (q - 1) * page + (page - 1);
      DivModUnique(page, q - 1, page - 1, d - 1);
    }
  }

  lemma {:induction false} SplitsToNone(page: nat, chain: seq<Mbuf>)
    requires page > 0
    ensures SplitChain(page, chain) == [] <==> forall i :: 0 <= i < |chain| ==> chain[i].len == 0
  {
    if chain != [] {
      SplitsToNone(page, chain[1..]);
      assert forall i :: 0 <= i < |chain| ==> chain[i] == if i == 0 then chain[0] else chain[1..][i - 1];
    }
  }

  /** A packet comes out without segments exactly if all its buffers are empty and it does not
      take the shortcut.  Success and failure of txMapPacket then look the same. */
  lemma NoSegments(page: nat, chain: seq<Mbuf>)
    requires page > 0
    ensures Segments(page, chain) == [] <==>
            !OnePage(page, chain) && forall i :: 0 <= i < |chain| ==> chain[i].len == 0
  {
    SplitsToNone(page, chain);
  }

  /** The short cut for one page gives what cutting would give, except for an empty buffer
      that does not start on a page boundary, which becomes one empty segment. */
  lemma ShortCutAgrees(page: nat, chain: seq<Mbuf>)
    requires page > 0 && OnePage(page, chain)
    ensures Segments(page, chain) == SplitChain(page, chain) <==> chain[0].len > 0
  {
    var d, len := chain[0].data, chain[0].len;
    assert chain[1..] == [];
    if len > 0 {
      SamePage(page, d, len);
      PieceBounds(page, d, len);
      assert SplitBuffer(page, d + len, 0) == [];
    }
  }

  /** Every segment is non-empty and inside one page, unless the packet is one empty buffer
      that takes the short cut. */
  lemma SegmentsInPages(page: nat, chain: seq<Mbuf>)
    requires page > 0
    ensures (forall r :: r in Segments(page, chain) ==> InOnePage(page, r))
       <==> !(OnePage(page, chain) && chain[0].len == 0)
  {
    SplitChainInPages(page, chain);
    if OnePage(page, chain) {
      ShortCutAgrees(page, chain);
      assert Segments(page, chain)[0] in Segments(page, chain);
    }
  }

  // ---------------------------------------------------------------- bytes

  function Bytes(mem: nat -> Byte, a: nat, n: nat): seq<Byte> {
    seq(n, i requires 0 <= i < n => mem(a + i))
  }

  function RangesBytes(mem: nat -> Byte, ranges: seq<Range>): seq<Byte> {
    if ranges == [] then []
    else Bytes(mem, ranges[0].address, ranges[0].length) + RangesBytes(mem, ranges[1..])
  }

  /** The packet as the stack sees it. */
  function PacketBytes(mem: nat -> Byte, chain: seq<Mbuf>): seq<Byte> {
    if chain == [] then []
    else Bytes(mem, chain[0].data, chain[0].len) + PacketBytes(mem, chain[1..])
  }

  lemma BytesAppend(mem: nat -> Byte, a: nat, m: nat, n: nat)
    ensures Bytes(mem, a, m) + Bytes(mem, a + m, n) == Bytes(mem, a, m + n)
  {
  }

  lemma {:induction false} RangesAppend(mem: nat -> Byte, a: seq<Range>, b: seq<Range>)
    ensures RangesBytes(mem, a + b) == RangesBytes(mem, a) + RangesBytes(mem, b)
  {
    if a == [] {
      assert a + b == b;
    } else {
      assert (a + b)[1..] == a[1..] + b;
      RangesAppend(mem, a[1..], b);
    }
  }

  lemma {:induction false} SplitBufferBytes(mem: nat -> Byte, page: nat, d: nat, len: nat)
    requires page > 0
    ensures RangesBytes(mem, SplitBuffer(page, d, len)) == Bytes(mem, d, len)
    decreases len
  {
    if len > 0 {
      var l := FirstPiece(page, d, len);
      SplitBufferBytes(mem, page, d + l, len - l);
      BytesAppend(mem, d, l, len - l);
    }
  }

  lemma FirstPiece(page: nat, d: nat, len: nat) returns (l: nat)
    requires page > 0 && len > 0
    ensures 0 < l <= len && SplitBuffer(page, d, len) != [] && SplitBuffer(page, d, len)[0] == Range(d, l)
    ensures SplitBuffer(page, d, len)[1..] == SplitBuffer(page, d + l, len - l)
  {
    PieceBounds(page, d, len);
    l := Piece(page, d, len);
  }

  lemma {:induction false} SplitChainBytes(mem: nat -> Byte, page: nat, chain: seq<Mbuf>)
    requires page > 0
    ensures RangesBytes(mem, SplitChain(page, chain)) == PacketBytes(mem, chain)
  {
    if chain != [] {
      SplitBufferBytes(mem, page, chain[0].data, chain[0].len);
      SplitChainBytes(mem, page, chain[1..]);
      RangesAppend(mem, SplitBuffer(page, chain[0].data, chain[0].len), SplitChain(page, chain[1..]));
    }
  }

  lemma SegmentsBytes(mem: nat -> Byte, page: nat, chain: seq<Mbuf>)
    requires page > 0
    ensures RangesBytes(mem, Segments(page, chain)) == PacketBytes(mem, chain)
  {
    if OnePage(page, chain) {
      assert Segments(page, chain)[1..] == [] && chain[1..] == [];
    } else {
      SplitChainBytes(mem, page, chain);
    }
  }

  // ---------------------------------------------------------------- device addresses

  /** The page a segment lies in. */
  function PageOf(page: nat, r: Range): Range
    requires page > 0
  {
    Range(r.address - r.address % page, page)
  }

  /** The segment as offset and length in its page. */
  function InPage(page: nat, r: Range): Range
    requires page > 0
  {
    Range(r.address % page, r.length)
  }

  /** The pages to map, one per segment. */
  function Pages(page: nat, segs: seq<Range>): seq<Range>
    requires page > 0
  {
    seq(|segs|, i requires 0 <= i < |segs| => PageOf(page, segs[i]))
  }

  /** What is recorded for a segment is a whole page, aligned, that holds all of it. */
  lemma PagesHold(page: nat, segs: seq<Range>, i: nat)
    requires page > 0 && i < |segs|
    ensures |Pages(page, segs)| == |segs|
    ensures var p := Pages(page, segs)[i];
            && p.length == page && p.address % page == 0 && p.address <= segs[i].address < p.address + page
            && (InOnePage(page, segs[i]) ==> segs[i].address + segs[i].length <= p.address + page)
  {
    DivModUnique(page, segs[i].address / page, 0, segs[i].address - segs[i].address % page);
  }

  /** The device addresses of the segments, given those of the pages. */
  function Vector(page: nat, segs: seq<Range>, iova: seq<nat>): seq<Range>
    requires page > 0 && |iova| == |segs|
  {
    seq(|segs|, i requires 0 <= i < |segs| => Range(iova[i] + segs[i].address % page, segs[i].length))
  }

  /** Through the mapper, the device sees each page at the address it was given. */
  ghost predicate Sees(dev: nat -> Byte, mem: nat -> Byte, pages: seq<Range>, iova: seq<nat>) {
    && |iova| == |pages|
    && forall i :: 0 <= i < |pages| ==>
         Bytes(dev, iova[i], pages[i].length) == Bytes(mem, pages[i].address, pages[i].length)
  }

  lemma BytesSlice(mem: nat -> Byte, a: nat, n: nat, o: nat, k: nat)
    requires o + k <= n
    ensures Bytes(mem, a + o, k) == Bytes(mem, a, n)[o..o + k]
  {
  }

  lemma SegmentBytes(dev: nat -> Byte, mem: nat -> Byte, page: nat, r: Range, iova: nat)
    requires page > 0 && r.address % page + r.length <= page
    requires Bytes(dev, iova, page) == Bytes(mem, r.address - r.address % page, page)
    ensures Bytes(dev, iova + r.address % page, r.length) == Bytes(mem, r.address, r.length)
  {
    var o := r.address % page;
    BytesSlice(dev, iova, page, o, r.length);
    BytesSlice(mem, r.address - o, page, o, r.length);
    assert r.address - o + o == r.address;
  }

  lemma {:induction false} VectorBytes(dev: nat -> Byte, mem: nat -> Byte, page: nat, segs: seq<Range>, iova: seq<nat>)
    requires page > 0 && Sees(dev, mem, Pages(page, segs), iova)
    requires forall r :: r in segs ==> r.address % page + r.length <= page
    ensures RangesBytes(dev, Vector(page, segs, iova)) == RangesBytes(mem, segs)
  {
    if segs != [] {
      var pages := Pages(page, segs);
      assert Bytes(dev, iova[0], pages[0].length) == Bytes(mem, pages[0].address, pages[0].length);
      SegmentBytes(dev, mem, page, segs[0], iova[0]);
      assert pages[1..] == Pages(page, segs[1..]);
      VectorBytes(dev, mem, page, segs[1..], iova[1..]);
      assert Vector(page, segs, iova)[1..] == Vector(page, segs[1..], iova[1..]);
    }
  }

  /** What the device reads through the vector is exactly the packet, byte for byte. */
  lemma DeviceReadsPacket(dev: nat -> Byte, mem: nat -> Byte, page: nat, chain: seq<Mbuf>, iova: seq<nat>)
    requires page > 0 && Sees(dev, mem, Pages(page, Segments(page, chain)), iova)
    ensures RangesBytes(dev, Vector(page, Segments(page, chain), iova)) == PacketBytes(mem, chain)
  {
    var segs := Segments(page, chain);
    SegmentsInPages(page, chain);
    VectorBytes(dev, mem, page, segs, iova);
    SegmentsBytes(mem, page, chain);
  }

  /** Whatever the memory holds, a device that sees the recorded ranges at these addresses reads
      the packet through the vector. */
  ghost predicate ReadsAs(vector: seq<Range>, ranges: seq<Range>, iova: seq<nat>, chain: seq<Mbuf>) {
    forall dev: nat -> Byte, mem: nat -> Byte ::
      Sees(dev, mem, ranges, iova) ==> RangesBytes(dev, vector) == PacketBytes(mem, chain)
  }

  lemma VectorReadsAs(page: nat, chain: seq<Mbuf>, iova: seq<nat>)
    requires page > 0 && |iova| == |Segments(page, chain)|
    ensures var segs := Segments(page, chain); ReadsAs(Vector(page, segs, iova), Pages(page, segs), iova, chain)
  {
    var segs := Segments(page, chain);
    forall dev: nat -> Byte, mem: nat -> Byte | Sees(dev, mem, Pages(page, segs), iova)
      ensures RangesBytes(dev, Vector(page, segs, iova)) == PacketBytes(mem, chain)
    {
      DeviceReadsPacket(dev, mem, page, chain, iova);
    }
  }
}
