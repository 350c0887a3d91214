/**
 Receive: reassembling frames that the chip spreads over several buffers, and cutting off the
 four bytes of frame check sequence that may themselves be split between the last two.
 */
module RxFrames {

  const FCS: int := 4      // kIOEthernetCRCSize

  type Byte = bv8

  /** A finished descriptor: the bytes the chip wrote, whether they end a frame, and whether
      the driver gives them up (receive error, no packet from the pool, or a pool packet that
      is itself a chain). */
  datatype Fragment = Fragment(data: seq<Byte>, last: bool, dropped: bool)

  /** An mbuf: the buffer's bytes and the length the driver set. */
  datatype Buffer = Buffer(data: seq<Byte>, len: int)

  /** What enqueueInputPacket gets: a chain of mbufs and the packet header's length. */
  datatype Packet = Packet(chain: seq<Buffer>, size: int)

  /** rxPacketHead .. rxPacketTail, rxPacketSize, and the packets passed up so far. */
  datatype Rx = Rx(chain: seq<Buffer>, size: int, out: seq<Packet>)

  const EMPTY := Rx([], 0, [])

  /** mbuf_adjustlen on the last mbuf of a chain: it refuses to cut more than there is. */
  function AdjustTail(chain: seq<Buffer>, amount: int): seq<Buffer>
    requires chain != [] && amount <= 0
  {
    var t := chain[|chain| - 1];
    if -amount > t.len then chain else chain[|chain| - 1 := t.(len := t.len + amount)]
  }

  /** One pass of the receive loop. */
  function Step(rx: Rx, f: Fragment): Rx {
    if f.dropped then Rx([], 0, rx.out)
    else if f.last then
      var n := |f.data| - FCS;
      var pkt :=
        if rx.chain == [] then Packet([Buffer(f.data, n)], n)
        else if n > 0 then Packet(rx.chain + [Buffer(f.data, n)], rx.size + n)
        else Packet(AdjustTail(rx.chain, n), rx.size + n);
      Rx([], 0, rx.out + [pkt])
    else
      var b := Buffer(f.data, |f.data|);
      if rx.chain == [] then Rx([b], |f.data|, rx.out) else Rx(rx.chain + [b], rx.size + |f.data|, rx.out)
  }

  function Receive(rx: Rx, fs: seq<Fragment>): Rx {
    if fs == [] then rx else Step(Receive(rx, fs[..|fs| - 1]), fs[|fs| - 1])
  }

  // ---------------------------------------------------------------- what it should be

  function Concat(fs: seq<Fragment>): seq<Byte> {
    if fs == [] then [] else Concat(fs[..|fs| - 1]) + fs[|fs| - 1].data
  }

  /** A frame without its check sequence. */
  function WithoutFcs(frame: seq<Byte>): seq<Byte> {
    if |frame| < FCS then [] else frame[..|frame| - FCS]
  }

  function Content(b: Buffer): seq<Byte> {
    if 0 <= b.len <= |b.data| then b.data[..b.len] else []
  }

  function Join(chain: seq<Buffer>): seq<Byte> {
    if chain == [] then [] else Join(chain[..|chain| - 1]) + Content(chain[|chain| - 1])
  }

  /** A well-formed packet that carries exactly `bytes`. */
  ghost predicate Carries(p: Packet, bytes: seq<Byte>) {
    && (forall i :: 0 <= i < |p.chain| ==> 0 <= p.chain[i].len <= |p.chain[i].data|)
    && Join(p.chain) == bytes && p.size == |bytes|
  }

  /** The check sequence lies in the last buffer d or in the last two. */
  predicate FcsInLastTwo(held: seq<Fragment>, d: seq<Byte>) {
    |d| + (if held == [] then 0 else |held[|held| - 1].data|) >= FCS
  }

  /** The fragments fs[i..j] belong together: nothing ends or is dropped before the last. */
  function Start(fs: seq<Fragment>, j: nat): nat
    requires j <= |fs|
    ensures Start(fs, j) <= j
  {
    if j == 0 then 0
    else if fs[j - 1].last || fs[j - 1].dropped then j
    else Start(fs, j - 1)
  }

  /** How many frames are completed before position j. */
  function Completed(fs: seq<Fragment>, j: nat): nat
    requires j <= |fs|
  {
    if j == 0 then 0 else Completed(fs, j - 1) + if fs[j - 1].last && !fs[j - 1].dropped then 1 else 0
  }

  // ---------------------------------------------------------------- proof

  /** Middle fragments as the mbufs that hold them. */
  function Whole(fs: seq<Fragment>): seq<Buffer> {
    if fs == [] then [] else Whole(fs[..|fs| - 1]) + [Buffer(fs[|fs| - 1].data, |fs[|fs| - 1].data|)]
  }

  lemma JoinAppend(chain: seq<Buffer>, b: Buffer)
    ensures Join(chain + [b]) == Join(chain) + Content(b)
  {
    assert (chain + [b])[..|chain|] == chain;
  }

  lemma ConcatAppend(fs: seq<Fragment>, f: Fragment)
    ensures Concat(fs + [f]) == Concat(fs) + f.data
    ensures Whole(fs + [f]) == Whole(fs) + [Buffer(f.data, |f.data|)]
  {
    assert (fs + [f])[..|fs|] == fs;
  }

  lemma {:induction false} WholeBytes(fs: seq<Fragment>)
    ensures Join(Whole(fs)) == Concat(fs)
  {
    if fs != [] {
      var init, f := fs[..|fs| - 1], fs[|fs| - 1];
      WholeBytes(init);
      JoinAppend(Whole(init), Buffer(f.data, |f.data|));
    }
  }

  lemma {:induction false} WholeFull(fs: seq<Fragment>)
    ensures |Whole(fs)| == |fs|
    ensures forall i :: 0 <= i < |fs| ==> 0 <= Whole(fs)[i].len == |Whole(fs)[i].data|
  {
    if fs != [] {
      WholeFull(fs[..|fs| - 1]);
    }
  }

  /** The packet that fragment d completes when `held` came before it. */
  function Finish(held: seq<Fragment>, d: seq<Byte>): Packet {
    Step(Rx(Whole(held), |Concat(held)|, []), Fragment(d, true, false)).out[0]
  }

  lemma CarriesAppend(w: seq<Buffer>, b: Buffer)
    requires forall i :: 0 <= i < |w| ==> 0 <= w[i].len == |w[i].data|
    requires 0 <= b.len <= |b.data|
    ensures Carries(Packet(w + [b], |Join(w)| + b.len), Join(w) + b.data[..b.len])
  {
    JoinAppend(w, b);
  }

  lemma DropEnd(a: seq<Byte>, d: seq<Byte>)
    requires |d| >= FCS
    ensures WithoutFcs(a + d) == a + d[..|d| - FCS]
  {
  }

  lemma DropTail(a: seq<Byte>, e: seq<Byte>, d: seq<Byte>)
    requires |d| <= FCS <= |e| + |d|
    ensures WithoutFcs(a + e + d) == a + e[..|e| + |d| - FCS]
  {
  }

  lemma FinishSingle(d: seq<Byte>)
    ensures Carries(Finish([], d), WithoutFcs(d)) <==> |d| >= FCS
  {
    var b := Buffer(d, |d| - FCS);
    assert Finish([], d) == Packet([b], |d| - FCS);
    if |d| >= FCS {
      CarriesAppend([], b);
      assert [] + [b] == [b];
    } else {
      assert Packet([b], |d| - FCS).chain[0].len < 0;
    }
  }

  lemma FinishLong(held: seq<Fragment>, d: seq<Byte>)
    requires held != [] && |d| > FCS
    ensures Carries(Finish(held, d), WithoutFcs(Concat(held) + d))
  {
    WholeBytes(held);
    WholeFull(held);
    CarriesAppend(Whole(held), Buffer(d, |d| - FCS));
    DropEnd(Concat(held), d);
  }

  lemma AdjustLast(w: seq<Buffer>, e: seq<Byte>, n: int)
    requires n <= 0
    ensures AdjustTail(w + [Buffer(e, |e|)], n) == w + [Buffer(e, if -n > |e| then |e| else |e| + n)]
  {
  }

  /** The last fragment is dropped and the rest of the check sequence cut from the tail. */
  lemma FinishCut(init: seq<Fragment>, e: Fragment, d: seq<Byte>)
    requires |d| <= FCS
    ensures Finish(init + [e], d) ==
            if |e.data| + |d| >= FCS
            then Packet(Whole(init) + [Buffer(e.data, |e.data| + |d| - FCS)], |Concat(init)| + |e.data| + |d| - FCS)
            else Packet(Whole(init + [e]), |Concat(init)| + |e.data| + |d| - FCS)
  {
    ConcatAppend(init, e);
    AdjustLast(Whole(init), e.data, |d| - FCS);
  }

  lemma FinishReaches(init: seq<Fragment>, e: Fragment, d: seq<Byte>)
    requires |d| <= FCS <= |e.data| + |d|
    ensures Carries(Finish(init + [e], d), WithoutFcs(Concat(init) + e.data + d))
  {
    FinishCut(init, e, d);
    WholeBytes(init);
    WholeFull(init);
    CarriesAppend(Whole(init), Buffer(e.data, |e.data| + |d| - FCS));
    DropTail(Concat(init), e.data, d);
  }

  lemma FinishFails(init: seq<Fragment>, e: Fragment, d: seq<Byte>, bytes: seq<Byte>)
    requires |e.data| + |d| < FCS
    ensures !Carries(Finish(init + [e], d), bytes)
  {
    FinishCut(init, e, d);
    ConcatAppend(init, e);
    WholeBytes(init + [e]);
  }

  lemma FinishExact(held: seq<Fragment>, d: seq<Byte>)
    ensures Carries(Finish(held, d), WithoutFcs(Concat(held) + d)) <==> FcsInLastTwo(held, d)
  {
    if held == [] {
      FinishSingle(d);
      assert Concat(held) + d == d;
    } else if |d| > FCS {
      FinishLong(held, d);
    } else {
      var init, e := held[..|held| - 1], held[|held| - 1];
      assert held == init + [e];
      if FcsInLastTwo(held, d) {
        FinishReaches(init, e, d);
      } else {
        FinishFails(init, e, d, WithoutFcs(Concat(held) + d));
      }
    }
  }

  lemma StepMiddle(rx: Rx, held: seq<Fragment>, f: Fragment)
    requires rx.chain == Whole(held) && rx.size == |Concat(held)| && !f.last && !f.dropped
    ensures Step(rx, f) == Rx(Whole(held + [f]), |Concat(held + [f])|, rx.out)
  {
    ConcatAppend(held, f);
    WholeFull(held);
  }

  lemma StepLast(rx: Rx, held: seq<Fragment>, f: Fragment)
    requires rx.chain == Whole(held) && rx.size == |Concat(held)| && f.last && !f.dropped
    ensures Step(rx, f) == Rx([], 0, rx.out + [Finish(held, f.data)])
  {
  }

  lemma ReceiveNext(rx: Rx, fs: seq<Fragment>, j: nat)
    requires j < |fs|
    ensures Receive(rx, fs[..j + 1]) == Step(Receive(rx, fs[..j]), fs[j])
  {
    assert fs[..j + 1][..j] == fs[..j];
  }

  lemma SliceGrows(fs: seq<Fragment>, s: nat, j: nat)
    requires s < j <= |fs|
    ensures fs[s..j] == fs[s..j - 1] + [fs[j - 1]]
  {
  }

  /** rx holds the fragments `held` and nothing else. */
  predicate Holds(rx: Rx, held: seq<Fragment>) {
    rx.chain == Whole(held) && rx.size == |Concat(held)|
  }

  lemma StepHolds(rx: Rx, held: seq<Fragment>, f: Fragment)
    requires Holds(rx, held)
    ensures Holds(Step(rx, f), if f.last || f.dropped then [] else held + [f])
    ensures |Step(rx, f).out| == |rx.out| + if f.last && !f.dropped then 1 else 0
  {
    if !f.last && !f.dropped {
      StepMiddle(rx, held, f);
    }
  }

  /** Between frames the driver holds exactly the fragments since the last end or drop. */
  lemma {:induction false} HoldsCurrent(fs: seq<Fragment>, j: nat)
    requires j <= |fs|
    ensures Holds(Receive(EMPTY, fs[..j]), fs[Start(fs, j)..j])
    ensures |Receive(EMPTY, fs[..j]).out| == Completed(fs, j)
  {
    if j > 0 {
      HoldsCurrent(fs, j - 1);
      ReceiveNext(EMPTY, fs, j - 1);
      HoldsNext(Receive(EMPTY, fs[..j - 1]), fs, j);
    }
  }

  lemma HoldsNext(rx: Rx, fs: seq<Fragment>, j: nat)
    requires 0 < j <= |fs| && Holds(rx, fs[Start(fs, j - 1)..j - 1]) && |rx.out| == Completed(fs, j - 1)
    ensures Holds(Step(rx, fs[j - 1]), fs[Start(fs, j)..j]) && |Step(rx, fs[j - 1]).out| == Completed(fs, j)
  {
    var s := Start(fs, j - 1);
    StepHolds(rx, fs[s..j - 1], fs[j - 1]);
    SliceGrows(fs, s, j);
  }

  lemma {:induction false} OutGrows(rx: Rx, fs: seq<Fragment>, j: nat)
    requires j <= |fs|
    ensures Receive(rx, fs[..j]).out <= Receive(rx, fs).out
    decreases |fs| - j
  {
    if j < |fs| {
      ReceiveNext(rx, fs, j);
      OutGrows(rx, fs, j + 1);
    } else {
      assert fs[..j] == fs;
    }
  }

  /** Any run, with any drops: the fragment at j completes a frame, the packet passed up for
      it is the next one in order, and it is built from the fragments since the last frame end
      or drop.  It carries exactly their bytes without the check sequence if and only if the
      check sequence does not reach back over more than two buffers. */
  lemma DeliversFrame(fs: seq<Fragment>, j: nat)
    requires j < |fs| && fs[j].last && !fs[j].dropped
    ensures Completed(fs, j) < |Receive(EMPTY, fs).out|
    ensures var pkt, held := Receive(EMPTY, fs).out[Completed(fs, j)], fs[Start(fs, j)..j];
            Carries(pkt, WithoutFcs(Concat(held) + fs[j].data)) <==> FcsInLastTwo(held, fs[j].data)
  {
    HoldsCurrent(fs, j);
    var held := fs[Start(fs, j)..j];
    ReceiveNext(EMPTY, fs, j);
    StepLast(Receive(EMPTY, fs[..j]), held, fs[j]);
    FinishExact(held, fs[j].data);
    OutGrows(EMPTY, fs, j + 1);
  }

  /** Start finds the last frame end or drop before j. */
  lemma {:induction false} StartIs(fs: seq<Fragment>, j: nat)
    requires j <= |fs|
    ensures var s := Start(fs, j);
            && (s > 0 ==> fs[s - 1].last || fs[s - 1].dropped)
            && (forall i :: s <= i < j ==> !fs[i].last && !fs[i].dropped)
    decreases j
  {
    if j > 0 && !fs[j - 1].last && !fs[j - 1].dropped {
      StartIs(fs, j - 1);
    }
  }

  /** A frame in one buffer goes up without its last four bytes; one of fewer than four bytes
      goes up with a negative length. */
  lemma OneBuffer(out: seq<Packet>, d: seq<Byte>)
    ensures var up := Step(Rx([], 0, out), Fragment(d, true, false)).out;
            && |up| == |out| + 1 && up[..|out|] == out && up[|out|].size == |d| - 4
            && (|d| >= 4 ==> Carries(up[|out|], d[..|d| - 4]))
  {
    FinishSingle(d);
  }

  /** Nothing else is passed up. */
  lemma DeliversOnlyFrames(fs: seq<Fragment>)
    ensures |Receive(EMPTY, fs).out| == Completed(fs, |fs|)
  {
    HoldsCurrent(fs, |fs|);
    assert fs[..|fs|] == fs;
  }

  // ---------------------------------------------------------------- error-free runs

  /** A frame as the chip spreads it: the contents of its buffers, the last one last. */
  datatype Frame = Frame(front: seq<seq<Byte>>, end: seq<Byte>)

  function Middles(parts: seq<seq<Byte>>): seq<Fragment> {
    if parts == [] then []
    else Middles(parts[..|parts| - 1]) + [Fragment(parts[|parts| - 1], false, false)]
  }

  /** The descriptors the chip finishes for a sequence of frames. */
  function Finished(frames: seq<Frame>): seq<Fragment> {
    if frames == [] then []
    else
      var f := frames[|frames| - 1];
      Finished(frames[..|frames| - 1]) + (Middles(f.front) + [Fragment(f.end, true, false)])
  }

  /** All bytes of a frame. */
  function AllBytes(f: Frame): seq<Byte> {
    Concat(Middles(f.front)) + f.end
  }

  /** Where one call stops and the next one resumes makes no difference. */
  lemma {:induction false} ReceiveConcat(rx: Rx, a: seq<Fragment>, b: seq<Fragment>)
    ensures Receive(rx, a + b) == Receive(Receive(rx, a), b)
  {
    if b == [] {
      assert a + b == a;
    } else {
      ReceiveConcat(rx, a, b[..|b| - 1]);
      assert (a + b)[..|a + b| - 1] == a + b[..|b| - 1];
    }
  }

  lemma {:induction false} ReceiveMiddles(out: seq<Packet>, parts: seq<seq<Byte>>)
    ensures var ms := Middles(parts);
            Receive(Rx([], 0, out), ms) == Rx(Whole(ms), |Concat(ms)|, out)
  {
    if parts != [] {
      var init, m := parts[..|parts| - 1], Fragment(parts[|parts| - 1], false, false);
      ReceiveMiddles(out, init);
      assert Middles(parts)[..|Middles(init)|] == Middles(init);
      StepMiddle(Receive(Rx([], 0, out), Middles(init)), Middles(init), m);
    }
  }

  lemma ReceiveFrame(out: seq<Packet>, f: Frame)
    ensures Receive(Rx([], 0, out), Middles(f.front) + [Fragment(f.end, true, false)])
         == Rx([], 0, out + [Finish(Middles(f.front), f.end)])
  {
    var ms, l := Middles(f.front), Fragment(f.end, true, false);
    ReceiveMiddles(out, f.front);
    assert (ms + [l])[..|ms|] == ms;
    StepLast(Receive(Rx([], 0, out), ms), ms, l);
  }

  /** The packets of a sequence of frames. */
  function Packets(frames: seq<Frame>): seq<Packet> {
    if frames == [] then []
    else
      var f := frames[|frames| - 1];
      Packets(frames[..|frames| - 1]) + [Finish(Middles(f.front), f.end)]
  }

  lemma {:induction false} ReceiveFrames(frames: seq<Frame>)
    ensures Receive(EMPTY, Finished(frames)) == Rx([], 0, Packets(frames))
  {
    if frames != [] {
      var init, f := frames[..|frames| - 1], frames[|frames| - 1];
      ReceiveFrames(init);
      ReceiveConcat(EMPTY, Finished(init), Middles(f.front) + [Fragment(f.end, true, false)]);
      ReceiveFrame(Packets(init), f);
    }
  }

  lemma {:induction false} PacketsAt(frames: seq<Frame>)
    ensures |Packets(frames)| == |frames|
    ensures forall k :: 0 <= k < |frames| ==> Packets(frames)[k] == Finish(Middles(frames[k].front), frames[k].end)
  {
    if frames != [] {
      PacketsAt(frames[..|frames| - 1]);
    }
  }

  /** With no errors and no failed allocation, one packet per frame is passed up, in order,
      and each carries its frame's bytes without the check sequence, however the frame was
      spread over buffers: exactly when its check sequence is in the last two of them. */
  lemma DeliversAllFrames(frames: seq<Frame>, k: nat)
    requires k < |frames|
    ensures |Receive(EMPTY, Finished(frames)).out| == |frames|
    ensures Carries(Receive(EMPTY, Finished(frames)).out[k], WithoutFcs(AllBytes(frames[k])))
            <==> FcsInLastTwo(Middles(frames[k].front), frames[k].end)
  {
    ReceiveFrames(frames);
    PacketsAt(frames);
    FinishExact(Middles(frames[k].front), frames[k].end);
  }

  /** A check sequence spread over three buffers is not cut off: the tail is too short, so
      mbuf_adjustlen changes nothing and the packet's header no longer matches its chain. */
  lemma FcsOverThreeBuffers()
    ensures var f := Frame([[1, 2, 3, 4, 5], [6]], [7]);
            && Receive(EMPTY, Finished([f])).out != [] && |AllBytes(f)| >= FCS
            && !Carries(Receive(EMPTY, Finished([f])).out[0], WithoutFcs(AllBytes(f)))
  {
    var f := Frame([[1, 2, 3, 4, 5], [6]], [7]);
    assert f.front[..1] == [[1, 2, 3, 4, 5]];
    DeliversAllFrames([f], 0);
  }

  // ---------------------------------------------------------------- the driver's loop

  /** The reassembly fields of the driver object. */
  class Receiver {
    var rxPacket: seq<Buffer>      // rxPacketHead .. rxPacketTail
    var rxPacketSize: int
    var enqueued: seq<Packet>

    constructor ()
      ensures State() == EMPTY
    {
      rxPacket, rxPacketSize, enqueued := [], 0, [];
    }

    ghost function State(): Rx
      reads this
    {
      Rx(rxPacket, rxPacketSize, enqueued)
    }

    method DiscardPacketFragment()
      modifies this
      ensures State() == Rx([], 0, old(enqueued))
    {
      rxPacket, rxPacketSize := [], 0;
    }

    /** Process finished descriptors until none is left or maxCount packets went up. */
    method RxInterrupt(ready: seq<Fragment>, maxCount: nat) returns (goodPkts: nat, n: nat)
      modifies this
      ensures n <= |ready| && State() == Receive(old(State()), ready[..n])
      ensures |enqueued| == |old(enqueued)| + goodPkts
      ensures goodPkts <= maxCount && (n == |ready| || goodPkts == maxCount)
    {
      goodPkts, n := 0, 0;
      while n < |ready| && goodPkts < maxCount
        invariant n <= |ready| && State() == Receive(old(State()), ready[..n])
        invariant |enqueued| == |old(enqueued)| + goodPkts && goodPkts <= maxCount
        decreases |ready| - n
      {
        ReceiveNext(old(State()), ready, n);
        goodPkts := ProcessDescriptor(ready[n], goodPkts);
        n := n + 1;
      }
    }

    method ProcessDescriptor(f: Fragment, count: nat) returns (goodPkts: nat)
      modifies this
      ensures State() == Step(old(State()), f)
      ensures goodPkts == count + |enqueued| - |old(enqueued)|
      // A drop discards what was held, the end of a frame passes one packet up, and anything
      // else is held behind what was held before.
      ensures f.dropped ==> rxPacket == [] && rxPacketSize == 0 && enqueued == old(enqueued)
      ensures !f.dropped && f.last ==>
                rxPacket == [] && |enqueued| == |old(enqueued)| + 1 && old(enqueued) <= enqueued
      ensures !f.dropped && !f.last ==>
                && rxPacket == old(rxPacket) + [Buffer(f.data, |f.data|)] && enqueued == old(enqueued)
                && (old(rxPacket) == [] ==> rxPacketSize == |f.data|)
                && (old(rxPacket) != [] ==> rxPacketSize == old(rxPacketSize) + |f.data|)
    {
      goodPkts := count;
      if f.dropped {
        DiscardPacketFragment();
        return;
      }
      var pktSize: int := |f.data|;
      if f.last {
        pktSize := pktSize - FCS;
        if rxPacket != [] {
          if pktSize > 0 {
            rxPacket := rxPacket + [Buffer(f.data, pktSize)];
          } else {
            rxPacket := AdjustTail(rxPacket, pktSize);
          }
          rxPacketSize := rxPacketSize + pktSize;
        } else {
          rxPacket, rxPacketSize := [Buffer(f.data, pktSize)], pktSize;
        }
        enqueued := enqueued + [Packet(rxPacket, rxPacketSize)];
        rxPacket, rxPacketSize := [], 0;
        goodPkts := goodPkts + 1;
      } else {
        var newPkt := Buffer(f.data, pktSize);
        if rxPacket != [] {
          rxPacket, rxPacketSize := rxPacket + [newPkt], rxPacketSize + pktSize;
        } else {
          rxPacket, rxPacketSize := [newPkt], pktSize;
        }
      }
    }
  }
}
