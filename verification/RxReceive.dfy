/**
 The receive side put together: fragments arrive in the ring's mbufs, the loop reads them, and
 what it passes up are the frames; and the mbufs that replace others come from the pool.
 */
module RxReceive {
  import opened Options
  import R = RxRing
  import opened RxPromises
  import opened RxFrames
  import Pool = RxPool

  /** What the chip receives for one descriptor: bytes for the buffer, and for the descriptor
      whether they end a frame. */
  datatype Arrival = Arrival(data: seq<Byte>, last: bool)

  /** The bytes that a pass of the loop finds, if the mbuf holds anything. */
  function BytesFound(found: Option<nat>, arrived: seq<Arrival>): seq<Byte> {
    if found.Some? && found.value < |arrived| then arrived[found.value].data else []
  }

  /** The fragments the loop has processed since the last clear: end of frame from the n-th
      descriptor, bytes from whatever was in its mbuf; the driver dropped some of them. */
  function Processed(d: R.Data, arrived: seq<Arrival>, drops: seq<bool>): (fs: seq<Fragment>)
    requires |drops| == |d.read| && d.base + |d.read| <= |arrived|
    ensures |fs| == |d.read|
  {
    seq(|d.read|, n requires 0 <= n < |d.read| =>
      Fragment(BytesFound(d.read[n], arrived), arrived[d.base + n].last, drops[n]))
  }

  /** The bytes received for fragments i up to j. */
  function Received(arrived: seq<Arrival>, i: nat, j: nat): seq<Byte>
    requires i <= j <= |arrived|
    decreases j
  {
    if i == j then [] else Received(arrived, i, j - 1) + arrived[j - 1].data
  }

  lemma ReceivedNext(arrived: seq<Arrival>, i: nat, j: nat)
    requires i <= j < |arrived|
    ensures Received(arrived, i, j + 1) == Received(arrived, i, j) + arrived[j].data
  {
  }

  /** Fragments i up to j have the bytes of those received from `base` on. */
  ghost predicate SameBytes(fs: seq<Fragment>, arrived: seq<Arrival>, base: nat) {
    base + |fs| <= |arrived| && forall n :: 0 <= n < |fs| ==> fs[n].data == arrived[base + n].data
  }

  lemma {:induction false} ConcatReceived(fs: seq<Fragment>, arrived: seq<Arrival>, base: nat, i: nat, j: nat)
    requires SameBytes(fs, arrived, base) && i <= j <= |fs|
    ensures Concat(fs[i..j]) == Received(arrived, base + i, base + j)
    decreases j
  {
    if i < j {
      ConcatReceived(fs, arrived, base, i, j - 1);
      assert fs[i..j] == fs[i..j - 1] + [fs[j - 1]];
      ConcatAppend(fs[i..j - 1], fs[j - 1]);
      ReceivedNext(arrived, base + i, base + j - 1);
    }
  }

  lemma ProcessedBytes(d: R.Data, arrived: seq<Arrival>, drops: seq<bool>)
    requires |drops| == |d.read| && d.base + |d.read| <= |arrived| && InOrder(d)
    ensures SameBytes(Processed(d, arrived, drops), arrived, d.base)
  {
  }

  /** The packet passed up for the frame end at j is the next in order and carries `bytes`
      without the check sequence. */
  ghost predicate PassedUp(fs: seq<Fragment>, j: nat, bytes: seq<Byte>)
    requires j < |fs|
  {
    var n, out := Completed(fs, j), Receive(EMPTY, fs).out;
    n < |out| && Carries(out[n], WithoutFcs(bytes))
  }

  lemma PassedUpExactly(fs: seq<Fragment>, j: nat, bytes: seq<Byte>)
    requires j < |fs| && fs[j].last && !fs[j].dropped && bytes == Concat(fs[Start(fs, j)..j]) + fs[j].data
    ensures PassedUp(fs, j, bytes) <==> FcsInLastTwo(fs[Start(fs, j)..j], fs[j].data)
  {
    DeliversFrame(fs, j);
  }

  /** The fragments since the last frame end or drop, up to the frame end at j, arrive as one
      packet exactly if the check sequence lies in the last two buffers. */
  ghost predicate Arrives(fs: seq<Fragment>, arrived: seq<Arrival>, base: nat, j: nat)
    requires base + |fs| <= |arrived| && j < |fs|
  {
    var s := Start(fs, j);
    PassedUp(fs, j, Received(arrived, base + s, base + j + 1)) <==> FcsInLastTwo(fs[s..j], fs[j].data)
  }

  lemma FrameBytes(fs: seq<Fragment>, arrived: seq<Arrival>, base: nat, i: nat, j: nat)
    requires SameBytes(fs, arrived, base) && i <= j < |fs|
    ensures Received(arrived, base + i, base + j + 1) == Concat(fs[i..j]) + fs[j].data
  {
    ConcatReceived(fs, arrived, base, i, j);
    ReceivedNext(arrived, base + i, base + j);
  }

  lemma FrameArrives(fs: seq<Fragment>, arrived: seq<Arrival>, base: nat, j: nat)
    requires SameBytes(fs, arrived, base) && j < |fs| && fs[j].last && !fs[j].dropped
    ensures Arrives(fs, arrived, base, j)
  {
    FrameBytes(fs, arrived, base, Start(fs, j), j);
    PassedUpExactly(fs, j, Received(arrived, base + Start(fs, j), base + j + 1));
  }

  lemma InOrderArrives(d: R.Data, arrived: seq<Arrival>, drops: seq<bool>, j: nat)
    requires |drops| == |d.read| && d.base + |d.read| <= |arrived| && InOrder(d)
    requires j < |d.read| && arrived[d.base + j].last && !drops[j]
    ensures Arrives(Processed(d, arrived, drops), arrived, d.base, j)
  {
    ProcessedBytes(d, arrived, drops);
    FrameArrives(Processed(d, arrived, drops), arrived, d.base, j);
  }

  /** From the wire to the stack, for every run of chip, driver and mapper in which no clear is
      refused, every fragmentation and any drops: the packet passed up for a frame end is the
      next in order and carries exactly the bytes the chip received since the last frame end
      or drop, without the last four, if and only if the check sequence lies in the last two
      buffers. */
  lemma FramesArrive(r: R.Ring, addrs: seq<nat>, steps: seq<R.Step>, arrived: seq<Arrival>, drops: seq<bool>, j: nat)
    requires Reached(r, addrs, steps) && Unrefused(steps)
    requires |arrived| == r.data.got && |drops| == |r.data.read| && r.data.base + |r.data.read| <= |arrived|
    requires j < |r.data.read| && arrived[r.data.base + j].last && !drops[j]
    ensures Arrives(Processed(r.data, arrived, drops), arrived, r.data.base, j)
  {
    ReadsInOrder(r, addrs, steps);
    InOrderArrives(r.data, arrived, drops, j);
  }

  // ---------------------------------------------------------------- where the mbufs come from

  /** An mbuf of the ring: one of the 1024 it was set up with, or a packet from getPacket. */
  datatype Source = SetUp(n: nat) | Replacement(pkt: Pool.Pkt)

  function Origin(m: nat, took: seq<nat>, p: Pool.Pool): Source
    requires m - R.RING < |took|
    requires forall n :: 0 <= n < |took| ==> took[n] < |Pool.Returned(p)|
  {
    if m < R.RING then SetUp(m) else Replacement(Pool.Returned(p)[took[m - R.RING]])
  }

  /** Ring and pool together, for every run of either: if each replacement takes what one call
      of getPacket returned, the mbufs in the ring and those passed up are all different
      packets. */
  lemma PacketsDistinct(r: R.Ring, addrs: seq<nat>, steps: seq<R.Step>,
                        p: Pool.Pool, small: nat, cluster: nat, calls: seq<Pool.Step>, took: seq<nat>, i: nat, j: nat)
    requires Reached(r, addrs, steps) && Pool.Reached(p, small, cluster, calls)
    requires r.made - R.RING <= |took| && R.Distinct(took)
    requires forall n :: 0 <= n < |took| ==> took[n] < |Pool.Returned(p)|
    requires i < j < |r.mbufs + r.delivered|
    ensures (r.mbufs + r.delivered)[i] < r.made && (r.mbufs + r.delivered)[j] < r.made
    ensures Origin((r.mbufs + r.delivered)[i], took, p) != Origin((r.mbufs + r.delivered)[j], took, p)
  {
    MadeBounds(r, addrs, steps);
    BuffersDistinct(r, addrs, steps, i, j);
    OriginsDiffer((r.mbufs + r.delivered)[i], (r.mbufs + r.delivered)[j], took, p, small, cluster, calls);
  }

  lemma MadeBounds(r: R.Ring, addrs: seq<nat>, steps: seq<R.Step>)
    requires Reached(r, addrs, steps)
    ensures forall i :: 0 <= i < |r.mbufs + r.delivered| ==> (r.mbufs + r.delivered)[i] < r.made
  {
    ReachedInv(r, addrs, steps);
  }

  lemma OriginsDiffer(a: nat, b: nat, took: seq<nat>, p: Pool.Pool, small: nat, cluster: nat, calls: seq<Pool.Step>)
    requires Pool.Reached(p, small, cluster, calls) && R.Distinct(took) && a != b
    requires forall n :: 0 <= n < |took| ==> took[n] < |Pool.Returned(p)|
    requires a - R.RING < |took| && b - R.RING < |took|
    ensures Origin(a, took, p) != Origin(b, took, p)
  {
    if a >= R.RING && b >= R.RING {
      var x, y := took[a - R.RING], took[b - R.RING];
      assert x != y;
      if x < y {
        Pool.HandedOnce(p, small, cluster, calls, x, y);
      } else {
        Pool.HandedOnce(p, small, cluster, calls, y, x);
      }
    }
  }
}
