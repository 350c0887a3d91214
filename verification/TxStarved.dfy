/**
 What a starved mapping leads to.  One packet is queued without a memory descriptor; from then
 on descriptors and packets are out of step, and a packet still in flight is unmapped.
 */
module TxStarved {
  import opened Options
  import opened TxSizes
  import opened TxModel
  import opened TxCalls
  import opened TxSafety
  import opened TxReach

  /** Where the handler stands, the slot holds the packet it is about to release. */
  lemma AtSlot(cfg: Config, s: State)
    requires cfg.vtd && Reaches(cfg, false, s) && At(s, Scan) && Singles(s.log)
    ensures s.ring.dirty < |s.ring.mbuf| && s.log.done < |s.log.hist|
    ensures s.ring.mbuf[s.ring.dirty] == Some(s.log.done)
  {
    Facts(cfg, false, s);
    assert Dist(s.ring.dirty, s.ring.dirty) == 0;
  }

  /** Release k packets; the last memory descriptor is not among theirs. */
  lemma {:induction false} ReleaseSingles(cfg: Config, s: State, k: nat) returns (t: State)
    requires cfg.vtd && Reaches(cfg, false, s) && s.irq.Busy? && s.irq.m == None && s.irq.at == Scan && k <= s.irq.n
    requires Singles(s.log) && |s.mem.io| == MEMS && s.mem.free + k < MEMS
    ensures Reaches(cfg, false, t) && t.irq == Busy(s.irq.n - k, None, Scan) && t.out == s.out
    ensures |t.mem.io| == MEMS && t.mem.free == s.mem.free + k && t.mem.numFree == s.mem.numFree + k
    ensures t.mem.use == s.mem.use && t.mem.io[MEMS - 1] == s.mem.io[MEMS - 1]
    ensures t.log.hist == s.log.hist && t.log.dequeued == s.log.dequeued
    ensures t.log.done == s.log.done + k && t.log.closed == s.log.closed && t.log.rung == s.log.rung
  {
    if k == 0 {
      t := s;
    } else {
      var u := ReleaseSingles(cfg, s, k - 1);
      AtSlot(cfg, u);
      t := ReleaseNext(cfg, false, u);
      Unmaps(cfg, u);
    }
  }

  /** Releasing a packet's last descriptor gives one memory descriptor back. */
  lemma Unmaps(cfg: Config, s: State)
    requires cfg.vtd && Sized(s) && At(s, Scan) && s.ring.mbuf[s.ring.dirty].Some?
    ensures var t := ReleaseOne(cfg, s);
            && t.mem == Ungrab(s.mem) && t.out == s.out
            && t.log.hist == s.log.hist && t.log.dequeued == s.log.dequeued
            && t.log.closed == s.log.closed && t.log.rung == s.log.rung
  {
  }

  // ---------------------------------------------------------------- out of step

  /** Packet 511 was queued without a memory descriptor, packet 0 has been released, and packet
      512 took the last memory descriptor. */
  lemma OneBehind(cfg: Config) returns (t: State)
    requires cfg.vtd
    ensures Reaches(cfg, false, t) && t.out.Ready? && t.irq.Idle? && Singles(t.log)
    ensures |t.log.hist| == MEMS + 1 && t.log.done == t.log.closed == 1
    ensures |t.mem.io| == MEMS && t.mem.free == 1
    ensures t.mem.io[MEMS - 1].Active? && t.mem.io[MEMS - 1].pkt == MEMS
  {
    var a := SendSingles(cfg, MEMS - 1);
    Unfed(cfg, a);
    var b := SendSingle(cfg, false, a);
    var c := Serve(cfg, false, b, 1);
    var d := Look(cfg, false, c);
    var e := ReleaseSingles(cfg, d, 1);
    Extend(cfg, false, e, FinishStep);
    t := SendSingle(cfg, false, e.(irq := Idle));
  }

  /** The harm: in a reachable state the handler is about to unmap for packet 511, and the
      memory descriptor it will take is that of packet 512, announced and not yet sent. */
  lemma UnmapsPacketInFlight(cfg: Config) returns (s: State)
    requires cfg.vtd
    ensures Reachable(cfg, s) && CanUnmap(cfg, s) && s.irq.m == Some(MEMS - 1)
    ensures s.mem.io[s.mem.free].Active? && s.mem.io[s.mem.free].pkt == MEMS
    ensures s.log.done == MEMS - 1 && MEMS < |s.log.hist| && s.log.hist[MEMS].pkt == MEMS && s.log.hist[MEMS].last
    ensures s.log.closed == MEMS < s.log.rung
  {
    var a := OneBehind(cfg);
    var b := Serve(cfg, false, a, MEMS - 1);
    var c := Look(cfg, false, b);
    var d := ReleaseSingles(cfg, c, MEMS - 2);
    AtSlot(cfg, d);
    Extend(cfg, false, d, TakeStep);
    Extend(cfg, false, Take(d), ClearSlotStep);
    s := ClearSlot(Take(d));
  }
}
