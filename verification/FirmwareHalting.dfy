/**
 Termination of firmware code: a program whose backward jumps all close a counted polling loop
 halts, whatever the registers return.
 */
module FirmwareHalting {
  import opened Firmware

  // ---------------------------------------------------------------- the loop shape

  /** The first jump at or after i. */
  function EndOf(p: seq<nat>, i: nat): (j: nat)
    requires i <= |p|
    ensures i <= j <= |p|
    ensures j < |p| ==> OpOf(p[j]).Jump?
    ensures forall k :: i <= k < j ==> !OpOf(p[k]).Jump?
    decreases |p| - i
  {
    if i == |p| || OpOf(p[i]).Jump? then i else EndOf(p, i + 1)
  }

  /** The first read at or after i. */
  function FirstRead(p: seq<nat>, i: nat): (r: nat)
    requires i <= |p|
    ensures i <= r <= |p|
    ensures r < |p| ==> OpOf(p[r]).Read?
    decreases |p| - i
  {
    if i == |p| || OpOf(p[i]).Read? then i else FirstRead(p, i + 1)
  }

  /** Where the jump at j goes. */
  function Top(p: seq<nat>, j: nat): int
    requires j < |p|
  {
    j - Regno(p[j])
  }

  /** How often the loop that ends at j reads at most. */
  function Limit(p: seq<nat>, j: nat): nat
    requires 0 < j < |p|
  {
    Data(p[j - 1])
  }

  /** An instruction of the loop's body: it neither jumps back, nor clears the count, nor
      reads except at r, and it skips neither over the read nor onto the jump. */
  predicate InBody(p: seq<nat>, i: nat, r: nat, j: nat)
    requires i < |p|
  {
    var op := OpOf(p[i]);
    && !op.Jump? && !op.ClearCount? && (i != r ==> !op.Read?)
    && (Moves(op) ==> var to := Target(p[i], i);
                      to > j || (i < r && to <= r) || (i > r && to < j))
  }

  /** An instruction before the loop does not skip into it. */
  predicate Before(p: seq<nat>, i: nat, t: int, j: nat)
    requires i < |p|
  {
    Moves(OpOf(p[i])) ==> Target(p[i], i) < t || Target(p[i], i) > j
  }

  /** The jump at j closes a counted polling loop: clear the count, then per pass one read,
      and an exit when the count reaches the limit. */
  ghost predicate Polls(p: seq<nat>, j: nat)
    requires j < |p|
  {
    var t := Top(p, j);
    && 1 <= t < j
    && var r := FirstRead(p, t);
       && r < j - 1 && p[r] != 0
       && OpOf(p[t - 1]).ClearCount? && OpOf(p[j - 1]).CountSkip? && Limit(p, j) >= 1
       && (forall i :: t <= i < j ==> InBody(p, i, r, j))
       && (forall i :: 0 <= i < t - 1 ==> Before(p, i, t, j))
  }

  ghost predicate Counted(p: seq<nat>) {
    && Accepted(p)
    && forall j :: 0 <= j < |p| && OpOf(p[j]).Jump? ==> Polls(p, j)
  }

  // ---------------------------------------------------------------- where control can go

  predicate InLoop(p: seq<nat>, i: nat) {
    i < |p| && EndOf(p, i) < |p| && Top(p, EndOf(p, i)) <= i
  }

  ghost predicate Goes(p: seq<nat>, i: nat, next: nat)
    requires i < |p|
  {
    (next == i + 1 && !OpOf(p[i]).Jump?) || (Moves(OpOf(p[i])) && next == Target(p[i], i))
  }

  /** A skip goes forward, a jump to its loop's top. */
  lemma TargetIs(p: seq<nat>, i: nat)
    requires Accepted(p) && i < |p| && Moves(OpOf(p[i]))
    ensures OpOf(p[i]).Jump? ==> Target(p[i], i) == Top(p, i)
    ensures !OpOf(p[i]).Jump? ==> i < Target(p[i], i)
  {
    assert Fine(p, i);
    if OpOf(p[i]).Jump? {
      JumpTarget(p, i);
    } else {
      ForwardTarget(p[i], i);
    }
  }

  lemma NoJumpInBody(p: seq<nat>, j: nat)
    requires j < |p| && Polls(p, j)
    ensures forall k :: Top(p, j) <= k < j ==> !OpOf(p[k]).Jump?
  {
    forall k | Top(p, j) <= k < j ensures !OpOf(p[k]).Jump? {
      assert InBody(p, k, FirstRead(p, Top(p, j)), j);
    }
  }

  lemma LoopOf(p: seq<nat>, j: nat, i: nat)
    requires j < |p| && OpOf(p[j]).Jump? && Polls(p, j) && Top(p, j) <= i <= j
    ensures EndOf(p, i) == j && InLoop(p, i)
  {
    NoJumpInBody(p, j);
  }

  /** A loop is entered only through the instruction that clears the count. */
  lemma OnlyWayIn(p: seq<nat>, i: nat, next: nat, j: nat)
    requires Counted(p) && i < |p| && Goes(p, i, next)
    requires j < |p| && OpOf(p[j]).Jump? && Top(p, j) <= next <= j
    ensures Top(p, j) - 1 <= i <= j
  {
    assert Polls(p, j);
    assert i < Top(p, j) - 1 ==> Before(p, i, Top(p, j), j);
    if Moves(OpOf(p[i])) {
      TargetIs(p, i);
      if OpOf(p[i]).Jump? {
        NoJumpInBody(p, i);
      }
    }
  }

  /** Leaving a loop forward leads outside all loops. */
  lemma LeavesLoops(p: seq<nat>, i: nat, next: nat, j: nat)
    requires Counted(p) && i < |p| && Goes(p, i, next)
    requires j < |p| && OpOf(p[j]).Jump? && Top(p, j) <= i <= j < next
    ensures !InLoop(p, next)
  {
    forall k | next <= k < |p| && OpOf(p[k]).Jump? ensures Top(p, k) > next {
      NoJumpInBody(p, k);
      if Top(p, k) <= next {
        OnlyWayIn(p, i, next, k);
      }
    }
  }

  // ---------------------------------------------------------------- the measure

  /** Inside a loop the count has not passed its limit, and is below it where a read or
      another pass is still to come. */
  ghost predicate Polling(p: seq<nat>, c: Cpu) {
    InLoop(p, c.index) && Polls(p, EndOf(p, c.index)) ==>
      var j := EndOf(p, c.index);
      var r := FirstRead(p, Top(p, j));
      c.count <= Limit(p, j) && (c.index <= r || c.index == j ==> c.count < Limit(p, j))
  }

  /** First component: code ahead, a loop counting as one place. */
  ghost function Ahead(p: seq<nat>, c: Cpu): int {
    |p| - if InLoop(p, c.index) then Top(p, EndOf(p, c.index)) else c.index
  }

  /** Second component: how far the loop is from its limit, in half passes. */
  ghost function HalfPasses(p: seq<nat>, c: Cpu): int {
    if InLoop(p, c.index) && Polls(p, EndOf(p, c.index)) then
      var j := EndOf(p, c.index);
      2 * (Limit(p, j) - c.count) + if c.index > FirstRead(p, Top(p, j)) then 1 else 0
    else 0
  }

  /** Third component: code ahead. */
  ghost function Rest(p: seq<nat>, c: Cpu): int {
    |p| - c.index
  }

  ghost predicate Less(p: seq<nat>, d: Cpu, c: Cpu) {
    || Ahead(p, d) < Ahead(p, c)
    || (Ahead(p, d) == Ahead(p, c)
        && (HalfPasses(p, d) < HalfPasses(p, c)
            || (HalfPasses(p, d) == HalfPasses(p, c) && Rest(p, d) < Rest(p, c))))
  }

  lemma StepGoes(p: seq<nat>, read: Registers, c: Cpu)
    requires Accepted(p) && Running(p, c) && p[c.index] != 0
    ensures var d := Step(p, read, c);
            && Goes(p, c.index, d.index) && d.index <= |p| && !d.stopped
            && d.count == (if OpOf(p[c.index]).Read? then c.count + 1
                           else if OpOf(p[c.index]).ClearCount? then 0 else c.count)
  {
    assert Fine(p, c.index);
  }

  /** Outside the loops the index only grows; a loop is entered with a cleared count. */
  lemma OutsideStep(p: seq<nat>, read: Registers, c: Cpu)
    requires Counted(p) && Running(p, c) && p[c.index] != 0 && !InLoop(p, c.index)
    ensures Polling(p, Step(p, read, c)) && Less(p, Step(p, read, c), c)
  {
    var i, d := c.index, Step(p, read, c);
    StepGoes(p, read, c);
    if OpOf(p[i]).Jump? {
      LoopOf(p, i, i);
    }
    if Moves(OpOf(p[i])) {
      TargetIs(p, i);
    }
    if InLoop(p, d.index) {
      var j := EndOf(p, d.index);
      OnlyWayIn(p, i, d.index, j);
      if Top(p, j) <= i {
        LoopOf(p, j, i);
      }
    }
  }

  /** What a step inside the loop from t to j, with its read at r and limit `lim`, does to the
      index and the count, if it does not leave the loop. */
  predicate Pass(i: nat, i': nat, n: nat, n': nat, t: int, r: nat, j: nat, lim: nat) {
    || (i < r && i < i' <= r && n' == n)
    || (i == r && i' == r + 1 && n' == n + 1)
    || (r < i < j - 1 && i < i' < j && n' == n)
    || (i == j - 1 && i' == j && n' == n && n != lim)
    || (i == j && i' == t && n' == n)
  }

  lemma InsideNext(p: seq<nat>, read: Registers, c: Cpu, j: nat)
    requires Counted(p) && Running(p, c) && p[c.index] != 0
    requires j < |p| && OpOf(p[j]).Jump? && Polls(p, j) && Top(p, j) <= c.index <= j
    ensures var d, t := Step(p, read, c), Top(p, j);
            d.index > j || Pass(c.index, d.index, c.count, d.count, t, FirstRead(p, t), j, Limit(p, j))
  {
    var i, r := c.index, FirstRead(p, Top(p, j));
    StepGoes(p, read, c);
    assert i < j ==> InBody(p, i, r, j);
    if Moves(OpOf(p[i])) {
      TargetIs(p, i);
    }
    if i == j - 1 {
      ForwardTarget(p[i], i);
    }
  }

  /** Inside a loop: the next instruction is in the same loop, or beyond it and all others. */
  lemma InsideStep(p: seq<nat>, read: Registers, c: Cpu)
    requires Counted(p) && Running(p, c) && p[c.index] != 0 && InLoop(p, c.index) && Polling(p, c)
    ensures Polling(p, Step(p, read, c)) && Less(p, Step(p, read, c), c)
  {
    var i, d := c.index, Step(p, read, c);
    var j := EndOf(p, i);
    assert Polls(p, j);
    StepGoes(p, read, c);
    InsideNext(p, read, c, j);
    if d.index > j {
      LeavesLoops(p, i, d.index, j);
    } else {
      LoopOf(p, j, d.index);
    }
  }

  lemma StepDecreases(p: seq<nat>, read: Registers, c: Cpu)
    requires Counted(p) && Running(p, c) && p[c.index] != 0 && Polling(p, c)
    ensures Polling(p, Step(p, read, c)) && Less(p, Step(p, read, c), c)
  {
    if InLoop(p, c.index) {
      InsideStep(p, read, c);
    } else {
      OutsideStep(p, read, c);
    }
  }

  lemma MeasureBounded(p: seq<nat>, c: Cpu)
    requires Counted(p) && Polling(p, c) && c.index <= |p|
    ensures Ahead(p, c) >= 0 && HalfPasses(p, c) >= 0 && Rest(p, c) >= 0
  {
  }

  /** What the induction over a run needs of one step. */
  lemma StepSmaller(p: seq<nat>, read: Registers, c: Cpu)
    requires Counted(p) && Running(p, c) && p[c.index] != 0 && Polling(p, c)
    ensures var d := Step(p, read, c);
            && Polling(p, d) && d.index <= |p| && Less(p, d, c)
            && Ahead(p, d) >= 0 && HalfPasses(p, d) >= 0 && Rest(p, d) >= 0
  {
    StepDecreases(p, read, c);
    StepGoes(p, read, c);
    MeasureBounded(p, Step(p, read, c));
  }

  lemma BootPolls(p: seq<nat>)
    requires Counted(p)
    ensures Polling(p, BOOT)
  {
    assert EndOf(p, 0) < |p| ==> Polls(p, EndOf(p, 0));
  }

  lemma HaltsLater(p: seq<nat>, read: Registers, c: Cpu, n: nat)
    requires Running(p, c) && !Running(p, Run(p, read, Step(p, read, c), n))
    ensures !Running(p, Run(p, read, c, n + 1))
  {
  }

  lemma ZeroHalts(p: seq<nat>, read: Registers, c: Cpu)
    requires Running(p, c) && p[c.index] == 0
    ensures !Running(p, Run(p, read, Step(p, read, c), 0))
  {
  }

  /** The measure of c is (a, h, t). */
  ghost predicate Measured(p: seq<nat>, c: Cpu, a: nat, h: nat, t: nat) {
    a == Ahead(p, c) && h == HalfPasses(p, c) && t == Rest(p, c)
  }

  lemma {:induction false} RunHalts(p: seq<nat>, read: Registers, c: Cpu, a: nat, h: nat, t: nat) returns (n: nat)
    requires Counted(p) && Polling(p, c) && Measured(p, c, a, h, t)
    ensures !Running(p, Run(p, read, c, n))
    decreases a, h, t
  {
    if !Running(p, c) {
      n := 0;
    } else if p[c.index] == 0 {
      ZeroHalts(p, read, c);
      HaltsLater(p, read, c, 0);
      n := 1;
    } else {
      var d := Step(p, read, c);
      StepSmaller(p, read, c);
      var m := RunHalts(p, read, d, Ahead(p, d), HalfPasses(p, d), Rest(p, d));
      HaltsLater(p, read, c, m);
      n := m + 1;
    }
  }

  /** Every program whose backward jumps all close counted polling loops halts, for every
      behaviour of the registers. */
  lemma CountedCodeHalts(p: seq<nat>, read: Registers)
    requires Counted(p)
    ensures exists n: nat :: !Running(p, Run(p, read, BOOT, n))
  {
    BootPolls(p);
    MeasureBounded(p, BOOT);
    var n := RunHalts(p, read, BOOT, Ahead(p, BOOT), HalfPasses(p, BOOT), Rest(p, BOOT));
  }

  lemma {:induction false} RunPolls(p: seq<nat>, read: Registers, c: Cpu, n: nat)
    requires Counted(p) && Polling(p, c) && c.index <= |p|
    ensures Polling(p, Run(p, read, c, n))
    decreases n
  {
    if n > 0 && Running(p, c) {
      if p[c.index] != 0 {
        StepDecreases(p, read, c);
        StepGoes(p, read, c);
      }
      RunPolls(p, read, Step(p, read, c), n - 1);
    }
  }

  lemma {:induction false} RunOn(p: seq<nat>, read: Registers, c: Cpu, n: nat)
    requires Running(p, Run(p, read, c, n))
    ensures Run(p, read, c, n + 1) == Step(p, read, Run(p, read, c, n))
    decreases n
  {
    if n > 0 {
      RunOn(p, read, Step(p, read, c), n - 1);
    } else {
      assert Run(p, read, Step(p, read, c), 0) == Step(p, read, c);
    }
  }

  /** In a loop the count never passes the loop's limit, and a read is only made below it. */
  lemma CountBelowLimit(p: seq<nat>, read: Registers, n: nat)
    requires Counted(p) && InLoop(p, Run(p, read, BOOT, n).index)
    ensures var c := Run(p, read, BOOT, n);
            var j := EndOf(p, c.index);
            && 0 < j && c.count <= Limit(p, j)
            && (OpOf(p[c.index]).Read? ==> c.count < Limit(p, j))
  {
    BootPolls(p);
    RunPolls(p, read, BOOT, n);
    var i := Run(p, read, BOOT, n).index;
    var j := EndOf(p, i);
    assert Polls(p, j);
    assert i < j ==> InBody(p, i, FirstRead(p, Top(p, j)), j);
  }

  /** After n steps the interpreter is inside the loop that ends at j. */
  predicate Within(p: seq<nat>, read: Registers, n: nat, j: nat) {
    var i := Run(p, read, BOOT, n).index;
    InLoop(p, i) && EndOf(p, i) == j
  }

  /** It is there from step m to step n. */
  ghost predicate Stays(p: seq<nat>, read: Registers, m: nat, n: nat, j: nat) {
    forall k {:trigger Within(p, read, k, j)} :: m <= k <= n ==> Within(p, read, k, j)
  }

  lemma {:induction false} RunStill(p: seq<nat>, read: Registers, c: Cpu, n: nat)
    requires !Running(p, Run(p, read, c, n))
    ensures Run(p, read, c, n + 1) == Run(p, read, c, n)
    decreases n
  {
    if n > 0 && Running(p, c) {
      RunStill(p, read, Step(p, read, c), n - 1);
    }
  }

  /** A step inside a loop counts every register read it makes, and never clears the count. */
  lemma LoopCountsReads(p: seq<nat>, read: Registers, c: Cpu)
    requires Counted(p) && Running(p, c) && InLoop(p, c.index)
    ensures Step(p, read, c).fetched - c.fetched == Step(p, read, c).count - c.count
  {
    var j := EndOf(p, c.index);
    assert Polls(p, j);
    assert c.index < j ==> InBody(p, c.index, FirstRead(p, Top(p, j)), j);
  }

  /** Reads made before the count was last cleared. */
  function Uncounted(p: seq<nat>, read: Registers, n: nat): int {
    Run(p, read, BOOT, n).fetched - Run(p, read, BOOT, n).count
  }

  predicate Level(p: seq<nat>, read: Registers, n: nat) {
    Uncounted(p, read, n + 1) == Uncounted(p, read, n)
  }

  lemma WithinIsLevel(p: seq<nat>, read: Registers, n: nat, j: nat)
    requires Counted(p) && Within(p, read, n, j)
    ensures Level(p, read, n)
  {
    var c := Run(p, read, BOOT, n);
    if Running(p, c) {
      RunOn(p, read, BOOT, n);
      LoopCountsReads(p, read, c);
    } else {
      RunStill(p, read, BOOT, n);
    }
  }

  lemma {:induction false} StaysLevel(p: seq<nat>, read: Registers, m: nat, n: nat)
    requires m <= n && forall k {:trigger Level(p, read, k)} :: m <= k < n ==> Level(p, read, k)
    ensures Uncounted(p, read, n) == Uncounted(p, read, m)
    decreases n
  {
    if m < n {
      var k := n - 1;
      StaysLevel(p, read, m, k);
      assert Level(p, read, k);
    }
  }

  /** As long as the interpreter stays in a loop, it reads registers at most as often as the
      loop's limit says. */
  lemma ReadsPerEntry(p: seq<nat>, read: Registers, m: nat, n: nat, j: nat)
    requires Counted(p) && m <= n && 0 < j < |p| && Stays(p, read, m, n, j)
    ensures Run(p, read, BOOT, n).fetched - Run(p, read, BOOT, m).fetched <= Limit(p, j)
  {
    forall k: nat | m <= k < n ensures Level(p, read, k) {
      WithinIsLevel(p, read, k, j);
    }
    StaysLevel(p, read, m, n);
    assert Within(p, read, n, j);
    CountBelowLimit(p, read, n);
  }

  /** One pass of the interpreter, in its own variables. */
  method Execute(p: seq<nat>, read: Registers, c: Cpu) returns (d: Cpu)
    requires Running(p, c) && p[c.index] != 0
    ensures d == Step(p, read, c)
  {
    var index, predata, count, bus, fetched, writes := c.index, c.predata, c.count, c.bus, c.fetched, c.writes;
    var action := p[index];
    var data, regno := Data(action), Regno(action);
    match OpOf(action) {
      case Read =>
        predata := read(fetched, bus, regno);
        count, fetched := count + 1, fetched + 1;
      case Or => predata := BitOr(predata, data);
      case And => predata := BitAnd(predata, data);
      case Jump => index := (index - (regno + 1)) % SIZE_T;
      case Select => bus := if data != 0 then Mac else Phy;
      case ClearCount => count := 0;
      case Write => writes := writes + [Access(bus, regno, data)];
      case CountSkip =>
        if count == data {
          index := (index + 1) % SIZE_T;
        }
      case EqSkip =>
        if predata == data {
          index := (index + regno) % SIZE_T;
        }
      case NeqSkip =>
        if predata != data {
          index := (index + regno) % SIZE_T;
        }
      case WritePrevious => writes := writes + [Access(bus, regno, predata % 0x1_0000)];
      case Skip => index := (index + regno) % SIZE_T;
      case Delay =>
      case Invalid =>
    }
    index := (index + 1) % SIZE_T;
    d := Cpu(index, predata, count, bus, fetched, writes, false);
  }

  /** rtl8125_fw_write_firmware on any program, watched for at most `limit` passes. */
  method Interpret(p: seq<nat>, read: Registers, limit: nat) returns (c: Cpu)
    ensures c == Run(p, read, BOOT, limit)
  {
    c := BOOT;
    var n := 0;
    while n < limit
      invariant 0 <= n <= limit && c == Run(p, read, BOOT, n)
    {
      if !Running(p, c) {
        RunStill(p, read, BOOT, n);
      } else {
        RunOn(p, read, BOOT, n);
        if p[c.index] == 0 {
          c := c.(stopped := true);
        } else {
          c := Execute(p, read, c);
        }
      }
      n := n + 1;
    }
  }

  /** rtl8125_fw_write_firmware: on counted code its loop ends. */
  method WriteFirmware(p: seq<nat>, read: Registers) returns (c: Cpu, ghost n: nat)
    requires Counted(p)
    ensures c == Run(p, read, BOOT, n) && !Running(p, c)
  {
    c, n := BOOT, 0;
    BootPolls(p);
    while Running(p, c)
      invariant c.index <= |p| && Polling(p, c) && c == Run(p, read, BOOT, n)
      decreases if c.stopped then 0 else 1, Ahead(p, c), HalfPasses(p, c), Rest(p, c)
    {
      RunOn(p, read, BOOT, n);
      n := n + 1;
      if p[c.index] == 0 {
        c := c.(stopped := true);
      } else {
        StepDecreases(p, read, c);
        StepGoes(p, read, c);
        MeasureBounded(p, c);
        c := Execute(p, read, c);
      }
    }
  }

  // ---------------------------------------------------------------- the shipped loop

  /** The polling loop of the shipped images: clear the count; wait, read register 16, mask
      bit 6, leave if it is set; leave after 100 reads; else go back to the wait. */
  const SHIPPED: seq<nat> :=
    [0x7000_0000, 0xe000_0001, 0x0010_0000, 0x2000_0040, 0xa002_0040, 0x9000_0064, 0x3005_0000]

  lemma ShippedWords()
    ensures OpOf(0x7000_0000) == ClearCount && OpOf(0xe000_0001) == Delay && OpOf(0x0010_0000) == Read
    ensures OpOf(0x2000_0040) == And && OpOf(0xa002_0040) == EqSkip && OpOf(0x9000_0064) == CountSkip
    ensures OpOf(0x3005_0000) == Jump && Regno(0x3005_0000) == 5 && Regno(0xa002_0040) == 2
    ensures Data(0x9000_0064) == 100
  {
  }

  lemma ShippedAt(p: seq<nat>, t: nat, j: nat)
    requires 1 <= t && j == t + 5 < |p| && p[t - 1..j + 1] == SHIPPED
    ensures p[t - 1] == 0x7000_0000 && p[t] == 0xe000_0001 && p[t + 1] == 0x0010_0000
    ensures p[t + 2] == 0x2000_0040 && p[t + 3] == 0xa002_0040 && p[t + 4] == 0x9000_0064 && p[j] == 0x3005_0000
  {
    assert SHIPPED[0] == p[t - 1..j + 1][0] && SHIPPED[1] == p[t - 1..j + 1][1];
    assert SHIPPED[2] == p[t - 1..j + 1][2] && SHIPPED[3] == p[t - 1..j + 1][3];
    assert SHIPPED[4] == p[t - 1..j + 1][4] && SHIPPED[5] == p[t - 1..j + 1][5];
    assert SHIPPED[6] == p[t - 1..j + 1][6];
  }

  /** Wherever it stands in an accepted program, unless something before skips into it, that
      loop has the shape that halts, with at most 100 reads. */
  lemma ShippedLoopPolls(p: seq<nat>, t: nat, j: nat)
    requires Accepted(p) && 1 <= t && j == t + 5 < |p| && p[t - 1..j + 1] == SHIPPED
    requires forall i :: 0 <= i < t - 1 ==> Before(p, i, t, j)
    ensures Polls(p, j) && Limit(p, j) == 100
  {
    ShippedAt(p, t, j);
    ShippedWords();
    var r := t + 1;
    assert FirstRead(p, t) == FirstRead(p, r) == r;
    ForwardTarget(p[j - 2], j - 2);
    ForwardTarget(p[j - 1], j - 1);
    assert InBody(p, t, r, j) && InBody(p, t + 1, r, j) && InBody(p, t + 2, r, j);
    assert InBody(p, t + 3, r, j) && InBody(p, t + 4, r, j);
  }

  // ---------------------------------------------------------------- what the shipped loop does

  lemma {:induction false} RunPlus(p: seq<nat>, read: Registers, c: Cpu, a: nat, b: nat)
    ensures Run(p, read, c, a + b) == Run(p, read, Run(p, read, c, a), b)
    decreases a
  {
    if a > 0 && Running(p, c) {
      RunPlus(p, read, Step(p, read, c), a - 1, b);
    } else if a > 0 {
      assert Run(p, read, c, b) == c;
    }
  }

  /** Bit 6, as the loop masks and compares it. */
  predicate BitSix(v: nat) {
    v / 64 % 2 == 1
  }

  /** The k-th register read, if it is one of register 16, finds the bit set. */
  predicate SixAt(read: Registers, bus: Bus, k: nat) {
    BitSix(read(k, bus, 16))
  }

  lemma MaskHalves(v: nat, m: nat)
    requires m % 2 == 0
    ensures BitAnd(v, m) == 2 * BitAnd(v / 2, m / 2)
  {
  }

  lemma MaskEight(v: nat, m: nat)
    requires m % 8 == 0
    ensures BitAnd(v, m) == 8 * BitAnd(v / 8, m / 8)
  {
    MaskHalves(v, m);
    MaskHalves(v / 2, m / 2);
    MaskHalves(v / 2 / 2, m / 2 / 2);
    assert v / 2 / 2 / 2 == v / 8 && m / 2 / 2 / 2 == m / 8;
  }

  lemma {:induction false} MaskZero(v: nat, m: nat)
    requires m == 0
    ensures BitAnd(v, m) == 0
    decreases v
  {
    if v > 0 {
      MaskZero(v / 2, m / 2);
    }
  }

  lemma MaskOne(v: nat, m: nat)
    requires m == 1
    ensures BitAnd(v, m) == v % 2
  {
    MaskZero(v / 2, m / 2);
  }

  /** Masking bit 6. */
  lemma MaskSix(v: nat, m: nat)
    requires m == 0x40
    ensures BitAnd(v, m) == if BitSix(v) then m else 0
  {
    MaskEight(v, m);
    MaskEight(v / 8, m / 8);
    MaskOne(v / 8 / 8, m / 8 / 8);
    assert v / 8 / 8 == v / 64;
  }

  /** The loop stands in p from t - 1 to t + 5. */
  predicate ShippedIn(p: seq<nat>, t: nat) {
    1 <= t && t + 5 < |p| <= SIZE_T / 4 && p[t - 1..t + 6] == SHIPPED
  }

  lemma WaitStep(p: seq<nat>, read: Registers, c: Cpu)
    requires Running(p, c) && |p| <= SIZE_T / 4 && p[c.index] == 0xe000_0001
    ensures Step(p, read, c) == c.(index := c.index + 1)
  {
    StepMeans(p, read, c);
    StepGoesTo(p, read, c);
  }

  lemma ReadStep(p: seq<nat>, read: Registers, c: Cpu)
    requires Running(p, c) && |p| <= SIZE_T / 4 && p[c.index] == 0x0010_0000
    ensures Step(p, read, c) == c.(index := c.index + 1, predata := read(c.fetched, c.bus, 16),
                                   count := c.count + 1, fetched := c.fetched + 1)
  {
    StepMeans(p, read, c);
    StepGoesTo(p, read, c);
  }

  lemma MaskStep(p: seq<nat>, read: Registers, c: Cpu)
    requires Running(p, c) && |p| <= SIZE_T / 4 && p[c.index] == 0x2000_0040
    ensures Step(p, read, c) == c.(index := c.index + 1, predata := if BitSix(c.predata) then 0x40 else 0)
  {
    StepMeans(p, read, c);
    StepGoesTo(p, read, c);
    MaskSix(c.predata, p[c.index] % 0x1_0000);
  }

  /** Waiting, reading register 16 and masking bit 6. */
  lemma ShippedRead(p: seq<nat>, read: Registers, t: nat, c: Cpu)
    requires ShippedIn(p, t) && c.index == t && !c.stopped
    ensures Run(p, read, c, 3) ==
            c.(index := t + 3, predata := if SixAt(read, c.bus, c.fetched) then 0x40 else 0,
               count := c.count + 1, fetched := c.fetched + 1)
  {
    ShippedAt(p, t, t + 5);
    WaitStep(p, read, c);
    var a := Step(p, read, c);
    ReadStep(p, read, a);
    var b := Step(p, read, a);
    MaskStep(p, read, b);
    RunOn(p, read, c, 0);
    RunOn(p, read, c, 1);
    RunOn(p, read, c, 2);
  }

  /** One turn of the loop: it is left behind its end if the bit was set or this was the
      hundredth read, and starts over otherwise. */
  lemma ShippedTurn(p: seq<nat>, read: Registers, t: nat, c: Cpu) returns (n: nat)
    requires ShippedIn(p, t) && c.index == t && !c.stopped && c.count < 100
    ensures var d, six := Run(p, read, c, n), SixAt(read, c.bus, c.fetched);
            && d == c.(index := if six || c.count == 99 then t + 6 else t, predata := d.predata,
                       count := c.count + 1, fetched := c.fetched + 1)
  {
    ShippedAt(p, t, t + 5);
    ShippedWords();
    ShippedRead(p, read, t, c);
    var b := Run(p, read, c, 3);
    StepMeans(p, read, b);
    StepGoesTo(p, read, b);
    RunOn(p, read, c, 3);
    n := 4;
    if !SixAt(read, c.bus, c.fetched) {
      n := ShippedRest(p, read, t, c, Step(p, read, b));
    }
  }

  lemma ShippedRest(p: seq<nat>, read: Registers, t: nat, c: Cpu, e: Cpu) returns (n: nat)
    requires ShippedIn(p, t) && Run(p, read, c, 4) == e && e.index == t + 4 && !e.stopped
    ensures Run(p, read, c, n) == e.(index := if e.count == 100 then t + 6 else t)
  {
    ShippedAt(p, t, t + 5);
    ShippedWords();
    StepMeans(p, read, e);
    StepGoesTo(p, read, e);
    RunOn(p, read, c, 4);
    n := 5;
    if e.count != 100 {
      var f := Step(p, read, e);
      StepMeans(p, read, f);
      StepGoesTo(p, read, f);
      RunOn(p, read, c, 5);
      n := 6;
    }
  }

  /** After n passes from c on the loop is left, with m reads; the bit was set at the last of them
      only, or at none of a hundred. */
  ghost predicate Waited(p: seq<nat>, read: Registers, t: nat, c: Cpu, n: nat, m: nat) {
    && 1 <= m <= 100 - c.count && Run(p, read, c, n).fetched == c.fetched + m && Left(Run(p, read, c, n), c, t)
    && (forall k :: c.fetched <= k < c.fetched + m - 1 ==> !SixAt(read, c.bus, k))
    && (SixAt(read, c.bus, c.fetched + m - 1) || m == 100 - c.count)
  }

  predicate Left(d: Cpu, c: Cpu, t: nat) {
    d.index == t + 6 && !d.stopped && d.writes == c.writes && d.bus == c.bus
  }

  lemma WaitedMore(p: seq<nat>, read: Registers, t: nat, c: Cpu, n: nat, d: Cpu, n': nat, m: nat)
    requires Run(p, read, c, n) == d && Waited(p, read, t, d, n', m) && !SixAt(read, c.bus, c.fetched)
    requires d == c.(predata := d.predata, count := c.count + 1, fetched := c.fetched + 1)
    ensures Waited(p, read, t, c, n + n', m + 1)
  {
    RunPlus(p, read, c, n, n');
  }

  /** From any turn on. */
  lemma {:induction false} ShippedTurns(p: seq<nat>, read: Registers, t: nat, c: Cpu) returns (n: nat, m: nat)
    requires ShippedIn(p, t) && c.index == t && !c.stopped && c.count < 100
    ensures Waited(p, read, t, c, n, m)
    decreases 100 - c.count
  {
    n := ShippedTurn(p, read, t, c);
    m := 1;
    var d := Run(p, read, c, n);
    if d.index == t {
      var n', m' := ShippedTurns(p, read, t, d);
      WaitedMore(p, read, t, c, n, d, n', m');
      n, m := n + n', m' + 1;
    }
  }

  /** The polling loop of the shipped images, entered at its first word, reads register 16 until
      bit 6 is set, at most a hundred times, writes nothing, and goes on behind its end. */
  lemma ShippedLoopWaits(p: seq<nat>, read: Registers, t: nat, c: Cpu) returns (n: nat, m: nat)
    requires ShippedIn(p, t) && c.index == t - 1 && !c.stopped
    ensures 1 <= m <= 100
    ensures var d := Run(p, read, c, n);
            d.index == t + 6 && !d.stopped && d.fetched == c.fetched + m && d.writes == c.writes && d.bus == c.bus
    ensures forall k :: c.fetched <= k < c.fetched + m - 1 ==> !SixAt(read, c.bus, k)
    ensures SixAt(read, c.bus, c.fetched + m - 1) || m == 100
  {
    ShippedAt(p, t, t + 5);
    ShippedWords();
    StepMeans(p, read, c);
    StepGoesTo(p, read, c);
    RunOn(p, read, c, 0);
    var a := Step(p, read, c);
    n, m := ShippedTurns(p, read, t, a);
    RunPlus(p, read, c, 1, n);
    n := n + 1;
  }

  /** A program with the shipped loop that therefore halts. */
  lemma ShippedProgramCounted()
    ensures Counted(SHIPPED + [0x801f_0a43])
  {
    var p := SHIPPED + [0x801f_0a43];
    ShippedWords();
    assert OpOf(0x801f_0a43) == Write;
    JumpTarget(p, 6);
    ForwardTarget(p[4], 4);
    ForwardTarget(p[5], 5);
    forall i | 0 <= i < 8 ensures Fine(p, i) {
    }
    assert p[0..7] == SHIPPED;
    ShippedLoopPolls(p, 1, 6);
  }
}
