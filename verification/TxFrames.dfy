/**
 How a sequence of claimed descriptors reads as packets: laying queued packets out as
 descriptors, and parsing descriptors back by their first/last flags.
 */
module TxFrames {
  import opened TxSizes
  import opened TxModel

  /** The descriptors of all queued packets, one after the other. */
  function Flat(q: seq<Queued>): seq<Rec> {
    if q == [] then [] else Flat(q[..|q| - 1]) + Recs(q[|q| - 1])
  }

  function FrameOf(q: Queued): Frame {
    Frame(q.opts, q.segs)
  }

  function Frames(q: seq<Queued>): seq<Frame> {
    seq(|q|, i requires 0 <= i < |q| => FrameOf(q[i]))
  }

  function Packets(q: seq<Queued>): seq<Packet> {
    seq(|q|, i requires 0 <= i < |q| => q[i].pkt)
  }

  datatype Parsed = Parsed(wire: seq<Frame>, acc: seq<Segment>)

  function ParseOne(p: Parsed, r: Rec): Parsed {
    var acc := if r.first then [r.seg] else p.acc + [r.seg];
    if r.last then Parsed(p.wire + [Frame(r.opts, acc)], []) else Parsed(p.wire, acc)
  }

  /** Read descriptors by FirstFrag and LastFrag only. */
  function Parse(h: seq<Rec>): Parsed {
    if h == [] then Parsed([], []) else ParseOne(Parse(h[..|h| - 1]), h[|h| - 1])
  }

  /** The packets whose last descriptor lies in `h`. */
  function Lasts(h: seq<Rec>): seq<Packet> {
    if h == [] then []
    else
      var r := h[|h| - 1];
      Lasts(h[..|h| - 1]) + if r.last then [r.pkt] else []
  }

  predicate WellFormed(q: seq<Queued>) {
    forall i :: 0 <= i < |q| ==> 1 <= |q[i].segs| <= MAX_SEGS
  }

  lemma {:induction false} LastsAppend(a: seq<Rec>, b: seq<Rec>)
    ensures Lasts(a + b) == Lasts(a) + Lasts(b)
    decreases |b|
  {
    if b == [] {
      assert a + b == a;
    } else {
      var b' := b[..|b| - 1];
      assert (a + b)[..|a + b| - 1] == a + b';
      LastsAppend(a, b');
    }
  }

  lemma ParseSnoc(h: seq<Rec>, r: Rec)
    ensures Parse(h + [r]) == ParseOne(Parse(h), r)
  {
    assert (h + [r])[..|h + [r]| - 1] == h;
  }

  /** Parsing one more record of a packet. */
  lemma ParseNextRec(h: seq<Rec>, r: seq<Rec>, k: nat)
    requires k < |r|
    ensures Parse(h + r[..k + 1]) == ParseOne(Parse(h + r[..k]), r[k])
  {
    ParseSnoc(h + r[..k], r[k]);
    assert h + r[..k + 1] == h + r[..k] + [r[k]];
  }

  /** The first k segments of a packet are gathered, not sent, until the last one. */
  lemma {:induction false} ParsePrefixOfPacket(h: seq<Rec>, q: Queued, k: nat)
    requires k < |q.segs|
    requires Parse(h).acc == []
    ensures Parse(h + Recs(q)[..k]) == Parsed(Parse(h).wire, q.segs[..k])
  {
    if k == 0 {
      assert h + Recs(q)[..0] == h;
    } else {
      ParsePrefixOfPacket(h, q, k - 1);
      ParseNextRec(h, Recs(q), k - 1);
      MiddleRec(Parse(h).wire, q, k - 1);
    }
  }

  /** A record before the last one is gathered. */
  lemma MiddleRec(wire: seq<Frame>, q: Queued, k: nat)
    requires k + 1 < |q.segs|
    ensures ParseOne(Parsed(wire, q.segs[..k]), Recs(q)[k]) == Parsed(wire, q.segs[..k + 1])
  {
    assert q.segs[..k + 1] == q.segs[..k] + [q.segs[k]];
  }

  lemma ParsePacket(h: seq<Rec>, q: Queued)
    requires 1 <= |q.segs|
    requires Parse(h).acc == []
    ensures Parse(h + Recs(q)) == Parsed(Parse(h).wire + [FrameOf(q)], [])
  {
    var n := |q.segs|;
    ParsePrefixOfPacket(h, q, n - 1);
    ParseNextRec(h, Recs(q), n - 1);
    assert h + Recs(q)[..n] == h + Recs(q);
    LastRec(Parse(h).wire, q);
  }

  /** The last record sends what was gathered. */
  lemma LastRec(wire: seq<Frame>, q: Queued)
    requires 1 <= |q.segs|
    ensures ParseOne(Parsed(wire, q.segs[..|q.segs| - 1]), Recs(q)[|q.segs| - 1]) == Parsed(wire + [FrameOf(q)], [])
  {
    var n := |q.segs|;
    assert q.segs[..n - 1] + [q.segs[n - 1]] == q.segs;
  }

  /** Parsing inverts layout: the flags alone recover every packet and all its segments. */
  lemma {:induction false} ParseFlat(q: seq<Queued>)
    requires WellFormed(q)
    ensures Parse(Flat(q)) == Parsed(Frames(q), [])
  {
    if q != [] {
      var q' := q[..|q| - 1];
      ParseFlat(q');
      ParsePacket(Flat(q'), q[|q| - 1]);
      assert Frames(q) == Frames(q') + [FrameOf(q[|q| - 1])];
    }
  }

  lemma ParseStep(h: seq<Rec>, k: nat)
    requires k < |h|
    ensures Parse(h[..k + 1]) == ParseOne(Parse(h[..k]), h[k])
  {
    ParseSnoc(h[..k], h[k]);
    assert h[..k + 1] == h[..k] + [h[k]];
  }

  lemma LastsStep(h: seq<Rec>, k: nat)
    requires k < |h|
    ensures var x := if h[k].last then [h[k].pkt] else [];
            && Lasts(h[..k + 1]) == Lasts(h[..k]) + x
            && Lasts(h[k..]) == x + Lasts(h[k + 1..])
  {
    assert Lasts([h[k]]) == if h[k].last then [h[k].pkt] else [] by {
      assert [h[k]][..0] == [];
    }
    LastsAppend(h[..k], [h[k]]);
    LastsAppend([h[k]], h[k + 1..]);
    assert h[..k + 1] == h[..k] + [h[k]];
    assert h[k..] == [h[k]] + h[k + 1..];
  }

  lemma {:induction false} ParseMonotone(h: seq<Rec>, k: nat)
    requires k <= |h|
    ensures Parse(h[..k]).wire <= Parse(h).wire
    decreases |h| - k
  {
    if k < |h| {
      ParseMonotone(h, k + 1);
      assert h[..k + 1][..k] == h[..k];
    } else {
      assert h[..k] == h;
    }
  }

  lemma {:induction false} LastsOfPrefix(q: Queued, k: nat)
    requires k < |q.segs|
    ensures Lasts(Recs(q)[..k]) == []
  {
    if k > 0 {
      assert Recs(q)[..k][..k - 1] == Recs(q)[..k - 1];
      LastsOfPrefix(q, k - 1);
    }
  }

  lemma LastsOfPacket(q: Queued)
    requires 1 <= |q.segs|
    ensures Lasts(Recs(q)) == [q.pkt]
  {
    LastsOfPrefix(q, |q.segs| - 1);
  }

  /** One last descriptor per packet, in order. */
  lemma {:induction false} LastsFlat(q: seq<Queued>)
    requires WellFormed(q)
    ensures Lasts(Flat(q)) == Packets(q)
  {
    if q != [] {
      var q' := q[..|q| - 1];
      LastsFlat(q');
      LastsOfPacket(q[|q| - 1]);
      LastsAppend(Flat(q'), Recs(q[|q| - 1]));
      assert Packets(q) == Packets(q') + [q[|q| - 1].pkt];
    }
  }

  lemma {:induction false} LastsCountWire(h: seq<Rec>)
    ensures |Lasts(h)| == |Parse(h).wire|
  {
    if h != [] {
      LastsCountWire(h[..|h| - 1]);
    }
  }

  lemma FlatAppend(q: seq<Queued>, x: Queued)
    ensures Flat(q + [x]) == Flat(q) + Recs(x)
  {
    assert (q + [x])[..|q + [x]| - 1] == q;
  }

  lemma {:induction false} FlatPrefix(q: seq<Queued>, k: nat)
    requires k <= |q|
    ensures Flat(q[..k]) <= Flat(q)
    decreases |q| - k
  {
    if k < |q| {
      FlatPrefix(q, k + 1);
      assert q[..k + 1][..k] == q[..k];
    } else {
      assert q[..k] == q;
    }
  }
}
