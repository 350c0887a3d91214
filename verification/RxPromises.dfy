/** What the receive ring keeps in every run, and what a refused clear does to it. */
module RxPromises {
  import opened Options
  import opened RxRing

  /** A state of some run after setupRxMap. */
  ghost predicate Reached(r: Ring, addrs: seq<nat>, steps: seq<Step>) {
    |addrs| == RING && GoodAddrs(addrs) && RunFrom(Init(addrs), steps) == Some(r)
  }

  lemma ReachedInv(r: Ring, addrs: seq<nat>, steps: seq<Step>)
    requires Reached(r, addrs, steps)
    ensures Inv(r)
  {
    InitInv(addrs);
    RunInv(Init(addrs), steps);
  }

  lemma Extend(r: Ring, addrs: seq<nat>, steps: seq<Step>, step: Step)
    requires Reached(r, addrs, steps) && Can(r, step)
    ensures Reached(Do(r, step), addrs, steps + [step])
  {
    assert (steps + [step])[..|steps|] == steps;
  }

  // ---------------------------------------------------------------- where the chip writes

  lemma OwnedAhead(r: Ring, i: nat)
    requires Core(r) && i < RING && r.slots[i].own
    ensures Dist(r.arm, i) >= r.fin
  {
    assert SlotOk(r.slots[i], r.mbufs[i], Dist(r.arm, i), r.pend, r.fin, Todo(r.phase));
  }

  /** At every moment, also in the middle of a remap and after refused ones, the address in a
      descriptor the chip owns leads to the mbuf in its slot if and only if the descriptor was
      last armed with a mapping. */
  lemma ArmedLeadsToSlot(r: Ring, addrs: seq<nat>, steps: seq<Step>, i: nat)
    requires Reached(r, addrs, steps) && i < RING
    ensures i < |r.slots| && i < |r.mbufs|
    ensures r.slots[i].own ==> (Target(r.slots, i) == Some(r.mbufs[i]) <==> !r.slots[i].bare)
  {
    ReachedInv(r, addrs, steps);
    if r.slots[i].own {
      OwnedAhead(r, i);
      TargetOwn(r, i);
    }
  }

  /** The chip owns a descriptor that was armed without a mapping. */
  predicate StrayAt(r: Ring, i: nat) {
    i < |r.slots| && r.slots[i].own && r.slots[i].bare
  }

  /** One armed without a mapping leads nowhere as long as its address is not in use; once it
      is in use for another slot j, the chip's write goes to what is mapped for j, which is the
      mbuf in that slot or one that has been passed up. */
  lemma BareLeadsTo(r: Ring, addrs: seq<nat>, steps: seq<Step>, i: nat, j: nat)
    requires Reached(r, addrs, steps) && |r.slots| == |r.mbufs| == RING && i < RING && j < RING && StrayAt(r, i)
    ensures Target(r.slots, i) == None <==> NotLive(r.slots, r.slots[i].addr)
    ensures Live(r.slots, j) == Some(r.slots[i].addr) ==>
              && j != i && Target(r.slots, i) == Some(r.slots[j].mapped.value.mbuf)
              && (Target(r.slots, i) == Some(r.mbufs[j]) || r.slots[j].mapped.value.mbuf in r.delivered)
  {
    ReachedInv(r, addrs, steps);
    OwnedAhead(r, i);
    assert SlotOk(r.slots[i], r.mbufs[i], Dist(r.arm, i), r.pend, r.fin, Todo(r.phase));
    LookupNone(r.slots, r.slots[i].addr);
    if Live(r.slots, j) == Some(r.slots[i].addr) {
      LookupIs(r.slots, j);
    }
  }

  // ---------------------------------------------------------------- clears

  /** A clear whose remap the mapper cuts short. */
  predicate Refused(step: Step) {
    step.ClearStep? && step.batches < BATCHES
  }

  /** What a clear leaves in each slot.  It is mapped exactly if its batch was mapped by the
      clear, or lies behind the refused one and was not due for mapping. */
  lemma ClearExact(r: Ring, addrs: seq<nat>, steps: seq<Step>, renewed: seq<nat>, k: nat, i: nat)
    requires Reached(r, addrs, steps) && Can(r, ClearStep(renewed, k)) && i < RING
    ensures var q := Clear(r, renewed, k);
            && q.slots[i].own
            && (Target(q.slots, i) == Some(q.mbufs[i]) <==>
                  || i < BATCH * k
                  || (i >= BATCH * k + BATCH && r.slots[i].phy != 0 && r.slots[i].mapped.Some?))
  {
    ReachedInv(r, addrs, steps);
    ClearInv(r, renewed, k);
    TargetOwn(Clear(r, renewed, k), i);
    assert SlotOk(r.slots[i], r.mbufs[i], Dist(r.arm, i), r.pend, r.fin, 0);
  }

  /** A descriptor that such a clear arms without a mapping, and that no clear had armed so
      before, leads nowhere at that moment if and only if its address is not among those the
      mapper has just handed out for the batches before. */
  lemma ClearArmsStray(r: Ring, addrs: seq<nat>, steps: seq<Step>, renewed: seq<nat>, k: nat, i: nat)
    requires Reached(r, addrs, steps) && Can(r, ClearStep(renewed, k)) && i < RING
    requires !r.slots[i].bare && Clear(r, renewed, k).slots[i].bare
    ensures var q := Clear(r, renewed, k);
            && q.slots[i].addr == r.slots[i].phy && BATCH * k <= |renewed|
            && (Target(q.slots, i) == None <==> r.slots[i].phy !in renewed[..BATCH * k])
  {
    ReachedInv(r, addrs, steps);
    var q, a := Clear(r, renewed, k), r.slots[i].phy;
    LookupNone(q.slots, a);
    assert SlotOk(r.slots[i], r.mbufs[i], Dist(r.arm, i), r.pend, r.fin, 0);
    forall j | 0 <= j < RING
      ensures Live(q.slots, j) == Some(a) <==> j < BATCH * k && renewed[..BATCH * k][j] == a
    {
      ClearLive(r, renewed, k, j);
      if j >= BATCH * k + BATCH {
        StaleBehind(r, k, i, j);
      }
    }
  }

  /** The recorded address of such a slot is not in use behind the refused batch. */
  lemma StaleBehind(r: Ring, k: nat, i: nat, j: nat)
    requires Inv(r) && r.phase.Idle? && i < RING && BATCH * k + BATCH <= j < RING && i >= BATCH * k
    requires !r.slots[i].bare
    requires i < BATCH * k + BATCH || r.slots[i].mapped != Some(Mapping(r.slots[i].phy, r.mbufs[i]))
    ensures Live(r.slots, j) != Some(r.slots[i].phy)
  {
    var s := r.slots[i];
    assert SlotOk(s, r.mbufs[i], Dist(r.arm, i), r.pend, r.fin, 0);
    assert SlotOk(r.slots[j], r.mbufs[j], Dist(r.arm, j), r.pend, r.fin, 0);
    if s.phy != 0 && s.mapped.Some? {
      assert Live(r.slots, i) == Some(s.phy) && i < j;
    } else if s.phy != 0 {
      assert Loose(s) && NotLive(r.slots, s.phy);
    }
  }

  /** Every descriptor the chip owns leads to the mbuf in its slot. */
  ghost predicate AllMapped(r: Ring) {
    forall i :: 0 <= i < |r.slots| && i < |r.mbufs| && r.slots[i].own ==> Target(r.slots, i) == Some(r.mbufs[i])
  }

  /** After a clear every descriptor the chip owns is mapped if and only if no batch was
      refused: those of a refused batch are armed without a mapping. */
  lemma ClearMapsAll(r: Ring, addrs: seq<nat>, steps: seq<Step>, renewed: seq<nat>, k: nat)
    requires Reached(r, addrs, steps) && Can(r, ClearStep(renewed, k))
    ensures AllMapped(Clear(r, renewed, k)) <==> k == BATCHES
  {
    var q := Clear(r, renewed, k);
    if k < BATCHES {
      ClearExact(r, addrs, steps, renewed, k, BATCH * k);
    } else {
      forall i: nat | i < RING ensures Target(q.slots, i) == Some(q.mbufs[i]) {
        ClearExact(r, addrs, steps, renewed, k, i);
      }
    }
  }

  /** Straight after setupRxMap, a clear may get the same addresses again. */
  lemma CanClearFirst(addrs: seq<nat>, k: nat)
    requires |addrs| == RING && GoodAddrs(addrs) && k <= BATCHES
    ensures Reached(Init(addrs), addrs, []) && Can(Init(addrs), ClearStep(addrs, k))
    ensures Reached(Clear(Init(addrs), addrs, k), addrs, [ClearStep(addrs, k)])
  {
    var r := Init(addrs);
    forall j, n | 0 <= n < RING && n < BATCH * k && n - n % BATCH + BATCH <= j < RING
      ensures Live(r.slots, j) != Some(addrs[n])
    {
      assert Live(r.slots, j) == Some(addrs[j]) && n < j;
    }
    Extend(r, addrs, [], ClearStep(addrs, k));
    assert [] + [ClearStep(addrs, k)] == [ClearStep(addrs, k)];
  }

  /** The shortest such run: a clear straight after setupRxMap whose first batch is refused. */
  lemma RefusedClearReached(addrs: seq<nat>)
    requires |addrs| == RING && GoodAddrs(addrs)
    ensures var q := Clear(Init(addrs), addrs, 0);
            Reached(q, addrs, [ClearStep(addrs, 0)]) && !AllMapped(q)
  {
    CanClearFirst(addrs, 0);
    ClearMapsAll(Init(addrs), addrs, [], addrs, 0);
  }

  /** A clear that is not refused leaves the ring as setupRxMap does, with the mbufs it holds
      now, whatever state it was in; a refused one still resets the indices. */
  lemma ClearRestores(r: Ring, addrs: seq<nat>, steps: seq<Step>, renewed: seq<nat>, k: nat, i: nat)
    requires Reached(r, addrs, steps) && Can(r, ClearStep(renewed, k)) && i < RING
    ensures var q := Clear(r, renewed, k);
            && q.next == 0 && q.mapNext == 0 && q.dev == 0 && q.pend == 0 && q.fin == 0 && q.lost == 0
            && q.mbufs == r.mbufs && q.delivered == r.delivered && q.slots[i].own
            && (k == BATCHES ==> q.slots[i].phy == renewed[i] && Target(q.slots, i) == Some(q.mbufs[i]))
  {
    ReachedInv(r, addrs, steps);
    ClearExact(r, addrs, steps, renewed, k, i);
  }

  // ---------------------------------------------------------------- over whole runs

  ghost predicate NoneBare(slots: seq<Slot>) {
    forall i :: 0 <= i < |slots| ==> !slots[i].bare
  }

  lemma StepNoneBare(r: Ring, step: Step)
    requires Can(r, step) && NoneBare(r.slots) && !Refused(step)
    ensures NoneBare(Do(r, step).slots)
  {
  }

  /** The state after the first n steps of a run. */
  ghost function After(addrs: seq<nat>, steps: seq<Step>, n: nat): Option<Ring>
    requires |addrs| == RING && n <= |steps|
  {
    RunFrom(Init(addrs), steps[..n])
  }

  lemma LastStep(r: Ring, steps: seq<Step>)
    requires RunFrom(r, steps).Some? && steps != []
    ensures var q := RunFrom(r, steps[..|steps| - 1]);
            q.Some? && Can(q.value, steps[|steps| - 1]) && RunFrom(r, steps) == Some(Do(q.value, steps[|steps| - 1]))
  {
  }

  lemma {:induction false} PrefixReached(r: Ring, addrs: seq<nat>, steps: seq<Step>, n: nat) returns (q: Ring)
    requires Reached(r, addrs, steps) && n <= |steps|
    ensures Reached(q, addrs, steps[..n])
    ensures n < |steps| ==> Can(q, steps[n]) && After(addrs, steps, n + 1) == Some(Do(q, steps[n]))
    decreases |steps| - n
  {
    if n == |steps| {
      assert steps[..n] == steps;
      q := r;
    } else {
      var p := PrefixReached(r, addrs, steps, n + 1);
      assert steps[..n + 1][..n] == steps[..n];
      LastStep(Init(addrs), steps[..n + 1]);
      q := RunFrom(Init(addrs), steps[..n]).value;
    }
  }

  ghost predicate Unrefused(steps: seq<Step>) {
    forall n :: 0 <= n < |steps| ==> !Refused(steps[n])
  }

  lemma {:induction false} UnrefusedNoneBare(r: Ring, addrs: seq<nat>, steps: seq<Step>)
    requires Reached(r, addrs, steps) && Unrefused(steps)
    ensures NoneBare(r.slots)
    decreases |steps|
  {
    if steps != [] {
      var n := |steps| - 1;
      assert steps[..n + 1] == steps;
      var q := PrefixReached(r, addrs, steps, n);
      UnrefusedNoneBare(q, addrs, steps[..n]);
      StepNoneBare(q, steps[n]);
    }
  }

  lemma UnrefusedAllMapped(r: Ring, addrs: seq<nat>, steps: seq<Step>)
    requires Reached(r, addrs, steps) && Unrefused(steps)
    ensures AllMapped(r)
  {
    UnrefusedNoneBare(r, addrs, steps);
    ReachedInv(r, addrs, steps);
    forall i: nat | i < RING && r.slots[i].own ensures Target(r.slots, i) == Some(r.mbufs[i]) {
      ArmedLeadsToSlot(r, addrs, steps, i);
    }
  }

  /** Over a whole run, whatever the chip does and however often rxInterruptVTD's own remaps
      are refused: each descriptor the chip owns leads to the mbuf in its slot at every moment
      if and only if no clear of the run was refused. */
  lemma ArmedIsMapped(r: Ring, addrs: seq<nat>, steps: seq<Step>)
    requires Reached(r, addrs, steps)
    ensures (forall n :: 0 <= n <= |steps| ==> After(addrs, steps, n).Some? && AllMapped(After(addrs, steps, n).value))
       <==> Unrefused(steps)
  {
    forall n | 0 <= n < |steps| && Refused(steps[n])
      ensures After(addrs, steps, n + 1).Some? && !AllMapped(After(addrs, steps, n + 1).value)
    {
      var q := PrefixReached(r, addrs, steps, n);
      ClearMapsAll(q, addrs, steps[..n], steps[n].addrs, steps[n].batches);
    }
    forall n | 0 <= n <= |steps| && Unrefused(steps)
      ensures After(addrs, steps, n).Some? && AllMapped(After(addrs, steps, n).value)
    {
      var q := PrefixReached(r, addrs, steps, n);
      UnrefusedAllMapped(q, addrs, steps[..n]);
    }
  }

  // ---------------------------------------------------------------- stale addresses

  /** The addresses the mapper hands out in a step. */
  function HandsOut(step: Step): seq<nat> {
    match step
    case PrepareStep(addrs) => addrs
    case ClearStep(addrs, k) => if BATCH * k <= |addrs| then addrs[..BATCH * k] else addrs
    case _ => []
  }

  /** From r on, after any number of the steps, the descriptor in slot i leads nowhere. */
  ghost predicate NowhereAlong(r: Ring, steps: seq<Step>, i: nat) {
    && (steps == [] || NowhereAlong(r, steps[..|steps| - 1], i))
    && var q := RunFrom(r, steps);
       q.Some? && i < |q.value.slots| && Target(q.value.slots, i) == None
  }

  /** Only a clear arms a descriptor without a mapping, and nothing else changes it while the
      chip owns it. */
  lemma StrayBefore(r: Ring, step: Step, i: nat)
    requires Inv(r) && Can(r, step) && !step.ClearStep? && i < RING && StrayAt(Do(r, step), i)
    ensures StrayAt(r, i) && Do(r, step).slots[i].addr == r.slots[i].addr
  {
  }

  lemma PrepareStray(r: Ring, addrs: seq<nat>, a: nat)
    requires Can(r, PrepareStep(addrs)) && r.mapNext + BATCH <= RING && NotLive(r.slots, a)
    ensures NotLive(Prepare(r, addrs).slots, a) <==> a !in addrs
  {
    var q := Prepare(r, addrs);
    forall j: nat | j < RING
      ensures Live(q.slots, j) == Some(a) <==> r.mapNext <= j < r.mapNext + BATCH && addrs[j - r.mapNext] == a
    {
      PrepareLive(r, addrs, j);
    }
    forall n | 0 <= n < BATCH && addrs[n] == a ensures Live(q.slots, r.mapNext + n) == Some(a) {
    }
  }

  /** No other step maps anything. */
  lemma OthersMapNothing(r: Ring, step: Step, a: nat)
    requires Can(r, step) && !step.PrepareStep? && !step.ClearStep? && NotLive(r.slots, a)
    ensures NotLive(Do(r, step).slots, a)
  {
    var q := Do(r, step);
    forall j | 0 <= j < |q.slots| && Live(q.slots, j).Some?
      ensures j < |r.slots| && Live(q.slots, j) == Live(r.slots, j)
    {
    }
  }

  lemma BatchFits(r: Ring)
    requires Indices(r)
    ensures r.mapNext + BATCH <= RING
  {
  }

  /** An address not in use comes into use exactly if it is handed out. */
  lemma StrayStep(r: Ring, step: Step, a: nat)
    requires Inv(r) && Can(r, step) && !step.ClearStep? && Lookup(r.slots, a) == None
    ensures Lookup(Do(r, step).slots, a) == None <==> a !in HandsOut(step)
  {
    LookupNone(r.slots, a);
    LookupNone(Do(r, step).slots, a);
    if step.PrepareStep? {
      BatchFits(r);
      PrepareStray(r, step.addrs, a);
    } else {
      OthersMapNothing(r, step, a);
    }
  }

  /** No step of the run is a clear. */
  predicate NoClear(steps: seq<Step>) {
    steps == [] || (NoClear(steps[..|steps| - 1]) && !steps[|steps| - 1].ClearStep?)
  }

  /** No step of the run hands the address out. */
  predicate NeverHandedOut(steps: seq<Step>, a: nat) {
    steps == [] || (NeverHandedOut(steps[..|steps| - 1], a) && a !in HandsOut(steps[|steps| - 1]))
  }

  /** From the clear that armed it until it is armed again, a descriptor without a mapping leads
      nowhere at every moment if and only if its address is not handed out again. */
  lemma {:induction false} StrayUntilHandedOut(r: Ring, steps: seq<Step>, i: nat)
    requires Inv(r) && i < RING && Target(r.slots, i) == None && NoClear(steps)
    requires RunFrom(r, steps).Some? && StrayAt(RunFrom(r, steps).value, i)
    ensures StrayAt(r, i) && RunFrom(r, steps).value.slots[i].addr == r.slots[i].addr
    ensures NowhereAlong(r, steps, i) <==> NeverHandedOut(steps, r.slots[i].addr)
    decreases |steps|
  {
    if steps != [] {
      var before, step := steps[..|steps| - 1], steps[|steps| - 1];
      var q := RunFrom(r, before).value;
      RunInv(r, before);
      StrayBefore(q, step, i);
      StrayUntilHandedOut(r, before, i);
      if NowhereAlong(r, before, i) {
        LastNowhere(r, before, i);
        StrayStep(q, step, r.slots[i].addr);
      }
    }
  }

  lemma LastNowhere(r: Ring, steps: seq<Step>, i: nat)
    requires NowhereAlong(r, steps, i)
    ensures Target(RunFrom(r, steps).value.slots, i) == None
  {
  }

  // ---------------------------------------------------------------- what the driver reads

  /** The mbuf a pass of the loop takes out of the ring is the one the chip wrote to for that
      descriptor if and only if the descriptor was armed with a mapping.  It holds the
      descriptor's own fragment if and only if, besides, no descriptor finished later was
      written into it as well. */
  lemma DeliversFilled(r: Ring, addrs: seq<nat>, steps: seq<Step>)
    requires Reached(r, addrs, steps) && Can(r, ProcessStep(Replaced))
    ensures Process(r, Replaced).delivered == r.delivered + [r.mbufs[r.next]]
    ensures r.slots[r.next].filled == Some(r.mbufs[r.next]) <==> !r.slots[r.next].bare
    ensures Found(r.data, r.mbufs[r.next]) == Some(r.data.base + |r.data.read|) <==>
            && !r.slots[r.next].bare
            && forall j :: 0 <= j < |r.slots| && r.pend < Dist(r.arm, j) < r.fin ==>
                 r.slots[j].filled != Some(r.mbufs[r.next])
  {
    ReachedInv(r, addrs, steps);
    NextFilled(r);
    HoldsOwn(r.slots, r.arm, r.pend, r.fin, r.data, r.mbufs[r.next]);
  }

  /** A pass that keeps its buffer passes nothing up and changes no slot. */
  lemma KeptChangesNothing(r: Ring)
    requires Can(r, ProcessStep(Kept))
    ensures var q := Process(r, Kept);
            && q.delivered == r.delivered && q.mbufs == r.mbufs && q.slots == r.slots && q.made == r.made
            && q.next == (if r.next == 1023 then 0 else r.next + 1)
  {
  }

  /** One that replaces it puts the new buffer in the slot and marks it as not mapped. */
  lemma ReplacedChangesSlot(r: Ring, i: nat)
    requires Can(r, ProcessStep(Replaced)) && i < |r.slots|
    ensures var q := Process(r, Replaced);
            && |q.slots| == |r.slots| && |q.mbufs| == |r.mbufs|
            && q.mbufs[i] == (if i == r.next then r.made else r.mbufs[i])
            && q.slots[i] == (if i == r.next then r.slots[i].(phy := 0) else r.slots[i])
            && q.next == (if r.next == 1023 then 0 else r.next + 1)
  {
  }

  lemma NextFilled(r: Ring)
    requires Core(r) && Can(r, ProcessStep(Replaced))
    ensures r.pend < r.fin && (r.slots[r.next].filled == Some(r.mbufs[r.next]) <==> !r.slots[r.next].bare)
  {
    LoopTest(r.slots, r.mbufs, r.arm, r.pend, r.fin);
    Ahead(r.arm, r.pend);
    assert SlotOk(r.slots[r.next], r.mbufs[r.next], r.pend, r.pend, r.fin, 0);
  }

  lemma HoldsOwn(slots: seq<Slot>, arm: nat, pend: nat, fin: nat, data: Data, m: nat)
    requires Written(slots, arm, pend, fin, data) && arm < RING && pend < fin <= RING
    ensures Found(data, m) == Some(data.base + |data.read|) <==>
            && slots[Fwd(arm, pend)].filled == Some(m)
            && forall j :: 0 <= j < RING && pend < Dist(arm, j) < fin ==> slots[j].filled != Some(m)
  {
    var i := Fwd(arm, pend);
    Ahead(arm, pend);
    assert slots[i].filled == Some(m) ==> WrittenAt(slots, arm, fin, data, i);
    if m in data.held {
      assert HeldAt(slots, arm, pend, fin, data, m);
      var d := Place(fin, data, data.held[m]);
      forall j | 0 <= j < RING && pend <= Dist(arm, j) < fin && slots[j].filled == Some(m) ensures Dist(arm, j) <= d {
        assert WrittenAt(slots, arm, fin, data, j);
      }
      if d > pend {
        Ahead(arm, d);
      }
    }
  }

  /** The passes since the last clear found the fragments received since then, in order. */
  ghost predicate InOrder(d: Data) {
    forall n :: 0 <= n < |d.read| ==> d.read[n] == Some(d.base + n)
  }

  lemma PassFinds(r: Ring)
    requires Inv(r) && Can(r, ProcessStep(Replaced)) && NoneBare(r.slots)
    ensures Found(r.data, r.mbufs[r.next]) == Some(r.data.base + |r.data.read|)
  {
    NextFilled(r);
    FilledApart(r);
    HoldsOwn(r.slots, r.arm, r.pend, r.fin, r.data, r.mbufs[r.next]);
  }

  lemma NextInOrder(d: Data, n: nat)
    requires InOrder(d) && n == d.base + |d.read|
    ensures InOrder(d.(read := d.read + [Some(n)]))
  {
  }

  lemma FilledApart(r: Ring)
    requires Core(r) && r.phase.Looping? && r.pend < RING && NoneBare(r.slots)
    ensures forall j :: 0 <= j < |r.slots| && r.pend < Dist(r.arm, j) < r.fin ==>
              r.slots[j].filled != Some(r.mbufs[r.next])
  {
    Ahead(r.arm, r.pend);
    forall j | 0 <= j < RING && r.pend < Dist(r.arm, j) < r.fin ensures r.slots[j].filled != Some(r.mbufs[r.next]) {
      assert SlotOk(r.slots[j], r.mbufs[j], Dist(r.arm, j), r.pend, r.fin, 0);
    }
  }

  lemma StepInOrder(r: Ring, step: Step)
    requires Inv(r) && Can(r, step) && NoneBare(r.slots) && InOrder(r.data)
    ensures InOrder(Do(r, step).data)
  {
    if step.ProcessStep? {
      PassFinds(r);
      NextInOrder(r.data, r.data.base + |r.data.read|);
    }
  }

  lemma ReadAtMostGot(r: Ring)
    requires Inv(r)
    ensures r.data.base + |r.data.read| <= r.data.got
  {
  }

  /** In every run without a refused clear, the n-th pass since the last clear finds the n-th
      fragment the chip received since then: none is lost, repeated or out of order. */
  lemma {:induction false} ReadsInOrder(r: Ring, addrs: seq<nat>, steps: seq<Step>)
    requires Reached(r, addrs, steps) && Unrefused(steps)
    ensures InOrder(r.data) && r.data.base + |r.data.read| <= r.data.got
    decreases |steps|
  {
    if steps != [] {
      var n := |steps| - 1;
      assert steps[..n + 1] == steps;
      var q := PrefixReached(r, addrs, steps, n);
      ReadsInOrder(q, addrs, steps[..n]);
      UnrefusedNoneBare(q, addrs, steps[..n]);
      ReachedInv(q, addrs, steps[..n]);
      StepInOrder(q, steps[n]);
    }
    ReachedInv(r, addrs, steps);
    ReadAtMostGot(r);
  }

  /** The mbufs in the ring differ, none of them was passed up, none was passed up twice. */
  lemma BuffersDistinct(r: Ring, addrs: seq<nat>, steps: seq<Step>, i: nat, j: nat)
    requires Reached(r, addrs, steps) && i < j < |r.mbufs + r.delivered|
    ensures |r.mbufs| == RING && (r.mbufs + r.delivered)[i] != (r.mbufs + r.delivered)[j]
  {
    ReachedInv(r, addrs, steps);
  }

  // ---------------------------------------------------------------- indices

  /** Between calls rxMapNextIndex is rxNextDescIndex rounded down to its batch, unless
      batches were lost to a failing mapper: then it lags exactly that far behind. */
  lemma MapNextRounded(r: Ring, addrs: seq<nat>, steps: seq<Step>)
    requires Reached(r, addrs, steps) && r.phase.Idle?
    ensures r.next == Fwd(r.mapNext, BATCH * r.lost + r.next % BATCH)
    ensures r.lost == 0 ==> r.mapNext == r.next - r.next % BATCH
  {
    ReachedInv(r, addrs, steps);
    Rounded(r.next, r.mapNext, r.pend, r.lost);
  }

  /** The loop ends on the own bit.  That tells a finished descriptor from one that was
      already processed exactly as long as the loop has not gone around the whole ring. */
  lemma LoopTestExact(r: Ring, addrs: seq<nat>, steps: seq<Step>)
    requires Reached(r, addrs, steps) && r.phase.Looping?
    ensures r.next < |r.slots| && ((!r.slots[r.next].own <==> r.pend < r.fin) <==> r.pend < RING)
  {
    ReachedInv(r, addrs, steps);
    Ahead(r.arm, r.pend);
  }

  // ---------------------------------------------------------------- two runs

  /** Since q, the chip has finished some descriptors and nothing else happened. */
  ghost predicate Since(q: Ring, r: Ring) {
    && |r.slots| == |q.slots|
    && (forall i :: 0 <= i < |q.slots| ==>
          r.slots[i] == q.slots[i].(own := r.slots[i].own, filled := r.slots[i].filled))
    && r == q.(slots := r.slots, fin := r.fin, dev := r.dev, data := r.data)
    && r.data.base == q.data.base && r.data.read == q.data.read
  }

  /** The chip finishes n more descriptors. */
  lemma {:induction false} FinishMany(q: Ring, addrs: seq<nat>, before: seq<Step>, n: nat)
    returns (r: Ring, steps: seq<Step>)
    requires Reached(q, addrs, before) && q.fin + n <= RING
    ensures Reached(r, addrs, steps) && Since(q, r) && r.fin == q.fin + n
  {
    if n == 0 {
      r, steps := q, before;
    } else {
      var p, mid := FinishMany(q, addrs, before, n - 1);
      ReachedInv(p, addrs, mid);
      Ahead(p.arm, p.fin);
      Extend(p, addrs, mid, FinishStep);
      r, steps := Finish(p), mid + [FinishStep];
    }
  }

  /** The loop keeps the buffers of n more descriptors. */
  lemma {:induction false} KeepMany(q: Ring, addrs: seq<nat>, before: seq<Step>, n: nat)
    returns (r: Ring, steps: seq<Step>)
    requires Reached(q, addrs, before) && q.phase.Looping? && q.pend + n <= q.fin
    ensures Reached(r, addrs, steps) && r.phase.Looping? && r.pend == q.pend + n
    ensures r == q.(next := r.next, pend := r.pend, phase := r.phase, data := r.data)
    ensures r.data == q.data.(read := r.data.read)
  {
    if n == 0 {
      r, steps := q, before;
    } else {
      var p, mid := KeepMany(q, addrs, before, n - 1);
      ReachedInv(p, addrs, mid);
      LoopTest(p.slots, p.mbufs, p.arm, p.pend, p.fin);
      Extend(p, addrs, mid, ProcessStep(Kept));
      r, steps := Process(p, Kept), mid + [ProcessStep(Kept)];
    }
  }

  /** With nothing processed, and the finished descriptors armed with a mapping, only mbufs in
      their slots hold anything. */
  lemma HeldIsFinished(r: Ring, addrs: seq<nat>, steps: seq<Step>, m: nat)
    requires Reached(r, addrs, steps) && r.pend == 0 && r.data.base == 0 && r.data.read == [] && m in r.data.held
    requires |r.slots| == |r.mbufs| == RING && forall i :: 0 <= i < RING && Dist(r.arm, i) < r.fin ==> !r.slots[i].bare
    ensures exists i :: 0 <= i < RING && Dist(r.arm, i) < r.fin && r.mbufs[i] == m
  {
    ReachedInv(r, addrs, steps);
    assert HeldAt(r.slots, r.arm, r.pend, r.fin, r.data, m);
    var d := Place(r.fin, r.data, r.data.held[m]);
    Ahead(r.arm, d);
    var i := Fwd(r.arm, d);
    assert SlotOk(r.slots[i], r.mbufs[i], d, r.pend, r.fin, Todo(r.phase));
  }

  /** A run in which the loop has gone around: every descriptor is processed, none is finished
      and waiting, and yet the loop would go on.  The next pass could even pass up an mbuf
      that the chip never wrote to. */
  lemma LoopGoesAround(addrs: seq<nat>) returns (r: Ring, steps: seq<Step>)
    requires |addrs| == RING && GoodAddrs(addrs)
    ensures Reached(r, addrs, steps) && r.phase.Looping? && r.pend == r.fin == RING
    ensures r.next < |r.slots| == |r.mbufs| && !r.slots[r.next].own
    ensures Process(r, Replaced).delivered == r.delivered + [r.mbufs[r.next]] && r.mbufs[r.next] !in r.data.held
  {
    var a, s := FinishMany(Init(addrs), addrs, [], RING);
    ReachedInv(a, addrs, s);
    if RING in a.data.held {
      HeldIsFinished(a, addrs, s, RING);
    }
    Extend(a, addrs, s, BeginStep);
    var b := a.(phase := Looping(0));
    ReachedInv(b, addrs, s + [BeginStep]);
    LoopTest(b.slots, b.mbufs, b.arm, b.pend, b.fin);
    Extend(b, addrs, s + [BeginStep], ProcessStep(Replaced));
    r, steps := KeepMany(Process(b, Replaced), addrs, s + [BeginStep] + [ProcessStep(Replaced)], RING - 1);
    ReachedInv(r, addrs, steps);
    Ahead(r.arm, r.pend);
  }

  /** What the code's loop test sees, wherever the loop is. */
  predicate LoopOn(r: Ring) {
    r.phase.Looping? && r.next < |r.slots| == |r.mbufs| && !r.slots[r.next].own
  }

  function Passes(r: Ring, n: nat): Ring
    requires r.phase.Looping? && r.next < |r.slots| == |r.mbufs| == RING
    ensures var q := Passes(r, n); q.phase.Looping? && q.next < RING && q.slots == r.slots && q.mbufs == r.mbufs
    decreases n
  {
    if n == 0 then r else Process(Passes(r, n - 1), Kept)
  }

  /** Once around, with the chip waiting for descriptors, the loop does not end by itself: for
      every n it can make n more passes that keep their buffers. */
  lemma LoopNeverEnds(r: Ring, addrs: seq<nat>, steps: seq<Step>, n: nat)
    requires Reached(r, addrs, steps) && r.phase.Looping? && r.fin == RING
    ensures r.next < |r.slots| == |r.mbufs| == RING && LoopOn(Passes(r, n))
  {
    ReachedInv(r, addrs, steps);
    var i := Passes(r, n).next;
    assert SlotOk(r.slots[i], r.mbufs[i], Dist(r.arm, i), r.pend, r.fin, 0);
  }

  /** The state after a clear that the mapper refuses at the second batch: the first batch is
      processed and torn down, the second is still armed at its old addresses. */
  lemma StaleState(addrs: seq<nat>) returns (r: Ring, steps: seq<Step>)
    requires |addrs| == RING && GoodAddrs(addrs)
    ensures Reached(r, addrs, steps) && r.phase == Torn(1) && r.mapNext == 0 && r.arm == 0 && r.fin == BATCH
    ensures |r.slots| == RING && r.mbufs == Init(addrs).mbufs && r.data.got == BATCH && BATCH !in r.data.held
    ensures forall i :: 0 <= i < RING ==>
              && Live(r.slots, i) == (if i < 2 * BATCH then None else Some(addrs[i]))
              && (i >= BATCH ==> r.slots[i].own && r.slots[i].addr == addrs[i])
              && (BATCH <= i < 2 * BATCH ==> r.slots[i].bare) && r.slots[i].phy != 0 && r.slots[i].range == i
  {
    CanClearFirst(addrs, 1);
    var c := Clear(Init(addrs), addrs, 1);
    var a, s := FinishMany(c, addrs, [ClearStep(addrs, 1)], BATCH);
    ReachedInv(a, addrs, s);
    BatchUnheld(a, addrs, s);
    Extend(a, addrs, s, BeginStep);
    var b, t := KeepMany(a.(phase := Looping(0)), addrs, s + [BeginStep], BATCH);
    ReachedInv(b, addrs, t);
    assert b.phase == Looping(1);
    Extend(b, addrs, t, EndStep);
    var e := b.(phase := Between(1));
    Extend(e, addrs, t + [EndStep], UnmapStep);
    r, steps := Unmap(e), t + [EndStep] + [UnmapStep];
  }

  /** So far only the first batch was written to. */
  lemma BatchUnheld(r: Ring, addrs: seq<nat>, steps: seq<Step>)
    requires Reached(r, addrs, steps) && r.pend == 0 && r.fin == BATCH && r.arm == 0 && r.phase.Idle?
    requires r.data.base == 0 && r.data.read == [] && r.mbufs == Init(addrs).mbufs
    requires forall i :: 0 <= i < BATCH && i < |r.slots| ==> !r.slots[i].bare
    ensures BATCH !in r.data.held && r.data.got == BATCH
  {
    ReachedInv(r, addrs, steps);
    if BATCH in r.data.held {
      HeldIsFinished(r, addrs, steps, BATCH);
    }
  }

  /** The mapper may hand the old addresses of the refused batch to the first one.  The fragment
      the chip then receives for the first descriptor of the refused batch goes into the mbuf
      in slot 0, and the mbuf in that descriptor's own slot holds nothing. */
  lemma StaleAddressReused(addrs: seq<nat>) returns (r: Ring, steps: seq<Step>)
    requires |addrs| == RING && GoodAddrs(addrs)
    ensures Reached(r, addrs, steps) && |r.slots| == |r.mbufs| == RING && r.mbufs[0] != r.mbufs[BATCH]
    ensures !r.slots[BATCH].own && r.slots[BATCH].filled == Some(r.mbufs[0])
    ensures Found(r.data, r.mbufs[0]) == Some(BATCH) && Found(r.data, r.mbufs[BATCH]) == None
  {
    var u, s := StaleState(addrs);
    var again := addrs[BATCH..2 * BATCH];
    assert Can(u, PrepareStep(again));
    Extend(u, addrs, s, PrepareStep(again));
    var p := Prepare(u, again);
    ReachedInv(p, addrs, s + [PrepareStep(again)]);
    PrepareLive(u, again, 0);
    LookupIs(p.slots, 0);
    assert p.dev == BATCH && p.slots[BATCH].addr == again[0];
    assert Target(p.slots, BATCH) == Some(0);
    Extend(p, addrs, s + [PrepareStep(again)], FinishStep);
    r, steps := Finish(p), s + [PrepareStep(again)] + [FinishStep];
  }
}
