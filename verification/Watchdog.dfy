/**
 The transmit watchdog: a timer that counts ticks without progress, looks for a lost interrupt
 once, and then resets the chip.
 */
module Watchdog {

  const DEADLOCK := 6                          // kTxDeadlockTreshhold
  const CHECK := 5                             // kTxCheckTreshhold

  /** What happens to the transmitter, in order.  A tick finds descriptors outstanding or not;
      `rescued` is how many completions its scan finds, should it make one. */
  datatype Event =
    | Completed(n: nat)
    | Tick(outstanding: bool, rescued: nat)
    | LinkUp
    | LinkDown
    | Cleared

  /** What the driver did on an event. */
  datatype Act = Nothing | Count | Scan | Reset

  /** The link flag, txDescDoneCount, txDescDoneLast and deadlockWarn. */
  datatype Dog = Dog(link: bool, count: nat, last: nat, warn: nat)

  /** Is the tick counted? */
  predicate Counted(d: Dog, outstanding: bool) {
    d.link && d.count == d.last && outstanding
  }

  /** timerActionRTL8125 with txHangCheck: a reset takes the link down and clears the rings. */
  function OnTick(d: Dog, outstanding: bool, rescued: nat): (Dog, Act) {
    if !d.link then (d.(last := d.count), Nothing)
    else if Counted(d, outstanding) then
      if d.warn + 1 == CHECK then
        (d.(warn := d.warn + 1, count := d.count + rescued, last := d.count + rescued), Scan)
      else if d.warn + 1 >= DEADLOCK then (Dog(false, d.count, d.count, 0), Reset)
      else (d.(warn := d.warn + 1, last := d.count), Count)
    else (d.(warn := 0, last := d.count), Nothing)
  }

  function On(d: Dog, e: Event): (Dog, Act) {
    match e
    case Completed(n) => (d.(count := d.count + n), Nothing)
    case Tick(outstanding, rescued) => OnTick(d, outstanding, rescued)
    case LinkUp => (d.(link := true), Nothing)
    case LinkDown => (d.(link := false, warn := 0), Nothing)
    case Cleared => (d.(warn := 0), Nothing)
  }

  /** A run: the events, the driver's state before each and after the last, and its acts. */
  datatype Run = Run(es: seq<Event>, ds: seq<Dog>, acts: seq<Act>)

  ghost predicate Goes(r: Run, p: int)
    requires 0 <= p < |r.es| && |r.acts| == |r.es| && |r.ds| == |r.es| + 1
  {
    (r.ds[p + 1], r.acts[p]) == On(r.ds[p], r.es[p])
  }

  ghost predicate IsRun(r: Run) {
    && |r.acts| == |r.es| && |r.ds| == |r.es| + 1 && r.ds[0] == Dog(false, 0, 0, 0)
    && forall p {:trigger Goes(r, p)} :: 0 <= p < |r.es| ==> Goes(r, p)
  }

  // ---------------------------------------------------------------- what a trace says

  /** Completions since the last tick before position p ended. */
  function DoneSince(es: seq<Event>, p: nat): nat
    requires p <= |es|
  {
    if p == 0 then 0
    else
      match es[p - 1]
      case Completed(n) => DoneSince(es, p - 1) + n
      case Tick(_, _) => 0
      case _ => DoneSince(es, p - 1)
  }

  /** The link before position p: up exactly if the last of link-up, link-down and reset was a
      link-up. */
  function LinkAt(es: seq<Event>, acts: seq<Act>, p: nat): bool
    requires p <= |es| == |acts|
  {
    p > 0 && (es[p - 1].LinkUp? || (!es[p - 1].LinkDown? && !acts[p - 1].Reset? && LinkAt(es, acts, p - 1)))
  }

  /** All completions before position p, those found by scans included. */
  function DoneBefore(es: seq<Event>, acts: seq<Act>, p: nat): nat
    requires p <= |es| == |acts|
  {
    if p == 0 then 0
    else
      DoneBefore(es, acts, p - 1) +
      match es[p - 1]
      case Completed(n) => n
      case Tick(_, rescued) => if acts[p - 1].Scan? then rescued else 0
      case _ => 0
  }

  /** A tick, with the link up, that finds descriptors outstanding and saw no completion since
      the tick before it ended. */
  ghost predicate Stalled(r: Run, p: int)
    requires IsRun(r)
  {
    && 0 <= p < |r.es| && r.es[p].Tick? && r.es[p].outstanding
    && LinkAt(r.es, r.acts, p) && DoneSince(r.es, p) == 0
  }

  /** Nothing between first and end restarts the count by itself. */
  ghost predicate Unbroken(es: seq<Event>, first: int, end: int)
    requires end <= |es|
  {
    0 <= first && forall p :: first <= p < end ==> !es[p].LinkDown? && !es[p].Cleared?
  }

  /** ps are all the ticks from the first of them up to `end`, and each of them is stalled. */
  ghost predicate StalledOnly(r: Run, ps: seq<int>, end: int)
    requires IsRun(r) && end <= |r.es|
  {
    && (forall i :: 0 <= i < |ps| ==> Stalled(r, ps[i]) && ps[i] < end)
    && (forall i, j :: 0 <= i < j < |ps| ==> ps[i] < ps[j])
    && (ps != [] ==> Unbroken(r.es, ps[0], end))
    && (ps != [] ==> forall p :: ps[0] <= p < end && r.es[p].Tick? ==> p in ps)
  }

  /** Such ticks, of which exactly the fifth made a scan and only a sixth led to a reset. */
  ghost predicate Streak(r: Run, ps: seq<int>, end: int)
    requires IsRun(r) && end <= |r.es|
  {
    && StalledOnly(r, ps, end)
    && (forall i :: 0 <= i < |ps| ==>
          r.acts[ps[i]] == if i + 1 == CHECK then Scan else if i + 1 == DEADLOCK then Reset else Count)
  }

  // ---------------------------------------------------------------- the count is right

  /** The driver's flag and counters tell what the trace tells. */
  lemma {:induction false} Counts(r: Run, p: nat)
    requires IsRun(r) && p <= |r.es|
    ensures r.ds[p].link == LinkAt(r.es, r.acts, p) && r.ds[p].count == DoneBefore(r.es, r.acts, p)
    ensures r.ds[p].count == r.ds[p].last + DoneSince(r.es, p)
    ensures r.ds[p].warn < DEADLOCK && (r.ds[p].warn > 0 ==> r.ds[p].link)
  {
    if p > 0 {
      Counts(r, p - 1);
      assert Goes(r, p - 1);
    }
  }

  /** Each event counts, restarts the count or leaves it alone. */
  lemma WarnNext(r: Run, p: nat)
    requires IsRun(r) && p < |r.es|
    ensures var w := r.ds[p].warn;
            && (Stalled(r, p) ==>
                  && r.acts[p] == (if w + 1 == CHECK then Scan else if w + 1 == DEADLOCK then Reset else Count)
                  && r.ds[p + 1].warn == if w + 1 == DEADLOCK then 0 else w + 1)
            && (r.es[p].Completed? || r.es[p].LinkUp? ==> r.ds[p + 1].warn == w)
            && (!Stalled(r, p) && (r.es[p].Tick? || r.es[p].LinkDown? || r.es[p].Cleared?) ==> r.ds[p + 1].warn == 0)
            && (r.acts[p].Reset? ==> Stalled(r, p) && w + 1 == DEADLOCK)
  {
    Counts(r, p);
    assert Goes(r, p);
  }

  lemma StreakOn(r: Run, ps: seq<int>, end: nat)
    requires IsRun(r) && end < |r.es| && Streak(r, ps, end) && (r.es[end].Completed? || r.es[end].LinkUp?)
    ensures Streak(r, ps, end + 1)
  {
  }

  lemma StreakMore(r: Run, ps: seq<int>, end: nat)
    requires IsRun(r) && end < |r.es| && Streak(r, ps, end) && Stalled(r, end) && |ps| == r.ds[end].warn
    ensures Streak(r, ps + [end], end + 1)
  {
    WarnNext(r, end);
  }

  /** deadlockWarn is the number of stalled ticks since the count last restarted. */
  lemma {:induction false} WarnIsStreak(r: Run, end: nat) returns (ps: seq<int>)
    requires IsRun(r) && end <= |r.es|
    ensures Streak(r, ps, end) && |ps| == r.ds[end].warn
  {
    ps := [];
    if end > 0 {
      var before := WarnIsStreak(r, end - 1);
      var e := r.es[end - 1];
      WarnNext(r, end - 1);
      Counts(r, end - 1);
      if e.Completed? || e.LinkUp? {
        StreakOn(r, before, end - 1);
        ps := before;
      } else if Stalled(r, end - 1) && |before| + 1 < DEADLOCK {
        StreakMore(r, before, end - 1);
        ps := before + [end - 1];
      }
    }
  }

  /** A reset only comes at the sixth of six consecutive ticks that were all stalled, with no
      link loss and no clear between them, and with exactly one scan, at the fifth. */
  lemma ResetOnlyAfterSix(r: Run, p: nat) returns (ps: seq<int>)
    requires IsRun(r) && p < |r.es| && r.acts[p].Reset?
    ensures |ps| == 6 && ps[5] == p && Streak(r, ps, p + 1)
    ensures r.acts[ps[4]].Scan? && forall i :: 0 <= i < 4 ==> r.acts[ps[i]].Count?
  {
    var before := WarnIsStreak(r, p);
    WarnNext(r, p);
    StreakMore(r, before, p);
    ps := before + [p];
  }

  lemma NoTickBetween(r: Run, ps: seq<int>, end: int, k: nat, p: int)
    requires IsRun(r) && end <= |r.es| && StalledOnly(r, ps, end) && 0 < k < |ps| && ps[k - 1] < p < ps[k]
    ensures 0 <= p < |r.es| && (r.es[p].Completed? || r.es[p].LinkUp?)
  {
    assert Stalled(r, ps[0]) && Stalled(r, ps[k]);
    forall i | 0 <= i < |ps| ensures ps[i] != p {
    }
  }

  /** From a restart on, the count is k after k stalled ticks. */
  lemma {:induction false} WarnAt(r: Run, ps: seq<int>, end: int, k: nat, q: nat)
    requires IsRun(r) && end <= |r.es| && StalledOnly(r, ps, end) && k < |ps| && k < DEADLOCK
    requires r.ds[ps[0]].warn == 0
    requires (if k == 0 then ps[0] else ps[k - 1] + 1) <= q <= ps[k]
    ensures r.ds[q].warn == k
    decreases q
  {
    if q > ps[0] {
      WarnNext(r, q - 1);
      if q - 1 == ps[k - 1] {
        WarnAt(r, ps, end, k - 1, q - 1);
      } else {
        NoTickBetween(r, ps, end, k, q - 1);
        WarnAt(r, ps, end, k, q - 1);
      }
    }
  }

  /** Conversely six such ticks, counted from a restart, do lead to a reset. */
  lemma ResetAfterSix(r: Run, ps: seq<int>)
    requires IsRun(r) && |ps| == DEADLOCK && 0 <= ps[0] && ps[DEADLOCK - 1] < |r.es|
    requires StalledOnly(r, ps, ps[DEADLOCK - 1] + 1) && r.ds[ps[0]].warn == 0
    ensures r.acts[ps[DEADLOCK - 1]].Reset?
  {
    var p := ps[DEADLOCK - 1];
    WarnAt(r, ps, p + 1, DEADLOCK - 1, p);
    WarnNext(r, p);
  }

  /** Any other tick, a link loss, a clear and the reset itself restart the count. */
  lemma Restarts(r: Run, p: nat)
    requires IsRun(r) && p < |r.es|
    requires r.es[p].LinkDown? || r.es[p].Cleared? || r.acts[p].Reset? || (r.es[p].Tick? && !Stalled(r, p))
    ensures r.ds[p + 1].warn == 0
  {
    WarnNext(r, p);
  }

  /** What a tick does to each of the driver's variables, in terms of the trace: only a reset
      touches the link, only a scan finds completions, and each tick ends with the completion
      count remembered. */
  lemma TickMeans(r: Run, p: nat)
    requires IsRun(r) && p < |r.es| && r.es[p].Tick?
    ensures var d, e := r.ds[p], r.ds[p + 1];
            && (e.link <==> LinkAt(r.es, r.acts, p) && !r.acts[p].Reset?)
            && e.count == d.count + (if r.acts[p].Scan? then r.es[p].rescued else 0) && e.last == e.count
            && (r.acts[p].Nothing? <==> !Stalled(r, p))
  {
    Counts(r, p);
    WarnNext(r, p);
    assert Goes(r, p);
  }

  // ---------------------------------------------------------------- the driver's code

  class Timer {
    var linkUp: bool
    var txDescDoneCount: nat
    var txDescDoneLast: nat
    var deadlockWarn: nat

    ghost function State(): Dog
      reads this
    {
      Dog(linkUp, txDescDoneCount, txDescDoneLast, deadlockWarn)
    }

    /** txHangCheck; `rescued` completions are there for its scan to find. */
    method TxHangCheck(outstanding: bool, rescued: nat) returns (deadlock: bool, act: Act)
      requires linkUp
      modifies this
      ensures var (d, a) := OnTick(old(State()), outstanding, rescued);
              State() == d.(last := old(txDescDoneLast)) && act == a && deadlock == a.Reset?
      ensures linkUp == !deadlock && txDescDoneLast == old(txDescDoneLast)
      ensures txDescDoneCount == old(txDescDoneCount) + if act.Scan? then rescued else 0
    {
      deadlock, act := false, Nothing;
      if txDescDoneCount == txDescDoneLast && outstanding {
        deadlockWarn := deadlockWarn + 1;
        act := Count;
        if deadlockWarn == CHECK {
          txDescDoneCount := txDescDoneCount + rescued;
          act := Scan;
        } else if deadlockWarn >= DEADLOCK {
          linkUp := false;
          deadlockWarn := 0;
          deadlock, act := true, Reset;
        }
      } else {
        deadlockWarn := 0;
      }
    }

    /** timerActionRTL8125: the timer is set again unless the link is down or was just lost. */
    method TimerAction(outstanding: bool, rescued: nat) returns (rearmed: bool, act: Act)
      modifies this
      ensures (State(), act) == OnTick(old(State()), outstanding, rescued)
      ensures rearmed <==> old(linkUp) && !act.Reset?
      ensures linkUp == rearmed && txDescDoneLast == txDescDoneCount
    {
      rearmed, act := false, Nothing;
      if linkUp {
        var deadlock;
        deadlock, act := TxHangCheck(outstanding, rescued);
        rearmed := !deadlock;
      }
      txDescDoneLast := txDescDoneCount;
    }
  }
}
