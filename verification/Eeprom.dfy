/**
 The serial EEPROM: the driver clocks commands out on three pins of the Cfg9346 register,
 and an abstract 93C46 or 93C56 samples them.
 */
module Eeprom {
  import opened Arithmetic

  const WORD := 0x1_0000
  const READ_OPCODE := 6
  const WRITE_OPCODE := 5
  const ERASE_OPCODE := 7
  const EWEN_OPCODE := 19
  const EWDS_OPCODE := 16
  const POLLS := 50000

  // ---------------------------------------------------------------- bits

  function Pow2(n: nat): (p: nat)
    ensures p > 0
  {
    if n == 0 then 1 else 2 * Pow2(n - 1)
  }

  /** Bit n of v. */
  function Bit(v: nat, n: nat): bool {
    v / Pow2(n) % 2 == 1
  }

  /** The low n bits of v, highest first. */
  function Bits(v: nat, n: nat): (s: seq<bool>)
    ensures |s| == n
  {
    seq(n, i requires 0 <= i < n => Bit(v, n - 1 - i))
  }

  function One(b: bool): nat {
    if b then 1 else 0
  }

  // ---------------------------------------------------------------- the chip

  /** The parts the driver knows: 93C46, and 93C56 or 93C66. */
  datatype Part = C46 | C56 | C66

  /** Number of address bits in an instruction. */
  function AddrBits(c: Part): nat {
    if c.C46? then 6 else 8
  }

  function Words(c: Part): nat {
    if c.C46? then 64 else if c.C56? then 128 else 256
  }

  /** The word an address selects: the 93C56 ignores the top address bit. */
  function AddrOf(c: Part, a: nat): (w: nat)
    ensures w < Words(c)
  {
    if c.C46? then a % 64 else if c.C56? then a % 128 else a % 256
  }

  /** A part has 64, 128 or 256 words; an address among them selects that word, and higher ones
      wrap around. */
  lemma AddrIs(c: Part, a: nat)
    ensures Words(c) == match c case C46 => 64 case C56 => 128 case C66 => 256
    ensures (a < Words(c) ==> AddrOf(c, a) == a) && AddrOf(c, a + Words(c)) == AddrOf(c, a)
  {
    match c
    case C46 => OneLap(64, a);
    case C56 => OneLap(128, a);
    case C66 => OneLap(256, a);
  }

  /** Opcode and address of an instruction. */
  function OpOf(c: Part, v: nat): nat {
    if c.C46? then v / 64 else v / 256
  }

  /** The two address bits that tell EWEN and EWDS apart. */
  function TopOf(c: Part, v: nat): nat {
    if c.C46? then v % 64 / 16 else v % 256 / 64
  }

  datatype Job = Erase(addr: nat) | Program(addr: nat, word: nat)

  datatype Phase =
    | Waiting                                   // for a start bit
    | Command(acc: nat, n: nat)                 // n bits after the start bit
    | Sending(word: nat, n: nat, out: bool)     // n data bits were put on DO
    | Receiving(addr: nat, acc: nat, n: nat)
    | Complete(job: Job)                        // runs when the chip is deselected
    | Done

  /** `busy` counts the register reads until the running job is finished, `delays` the
      durations of the jobs to come; `status` says DO shows ready or busy. */
  datatype Chip = Chip(mem: seq<nat>, enabled: bool, cs: bool, sk: bool, phase: Phase,
                       busy: nat, status: bool, delays: seq<nat>)

  function Apply(mem: seq<nat>, job: Job): seq<nat>
    requires job.addr < |mem|
  {
    mem[job.addr := if job.Erase? then WORD - 1 else job.word]
  }

  /** What a complete command makes the chip do next. */
  function Decode(c: Part, mem: seq<nat>, v: nat): Phase
    requires |mem| == Words(c)
  {
    var op, a := OpOf(c, v), AddrOf(c, v);
    if op == 2 then Sending(mem[a], 0, false)
    else if op == 1 then Receiving(a, 0, 0)
    else if op == 3 then Complete(Erase(a))
    else Done
  }

  /** Whether a complete command enables or disables writing. */
  function Enables(c: Part, v: nat, enabled: bool): bool {
    if OpOf(c, v) == 0 && TopOf(c, v) == 3 then true
    else if OpOf(c, v) == 0 && TopOf(c, v) == 0 then false
    else enabled
  }

  function NextPhase(c: Part, mem: seq<nat>, phase: Phase, di: bool, ready: bool): Phase
    requires |mem| == Words(c)
  {
    match phase
    case Waiting => if di && ready then Command(0, 0) else Waiting
    case Command(acc, n) =>
      if n + 1 == 2 + AddrBits(c) then Decode(c, mem, 2 * acc + One(di)) else Command(2 * acc + One(di), n + 1)
    case Sending(w, n, _) => Sending(w, n + 1, n < 16 && Bit(w, 15 - n))
    case Receiving(a, acc, n) =>
      if n + 1 == 16 then Complete(Program(a, 2 * acc + One(di))) else Receiving(a, 2 * acc + One(di), n + 1)
    case Complete(_) => phase
    case Done => Done
  }

  function NextEnabled(c: Part, phase: Phase, di: bool, enabled: bool): bool {
    if phase.Command? && phase.n + 1 == 2 + AddrBits(c) then Enables(c, 2 * phase.acc + One(di), enabled) else enabled
  }

  /** A rising clock while selected. */
  function Clock(c: Part, d: Chip, di: bool): Chip
    requires |d.mem| == Words(c)
  {
    d.(phase := NextPhase(c, d.mem, d.phase, di, d.busy == 0),
       enabled := NextEnabled(c, d.phase, di, d.enabled),
       status := d.status && !(d.phase.Waiting? && di && d.busy == 0))
  }

  /** How long the next job takes, and the one after it. */
  function Delay(d: Chip): nat {
    if d.delays == [] then 0 else d.delays[0]
  }

  function Delay2(d: Chip): nat {
    if |d.delays| < 2 then 0 else d.delays[1]
  }

  /** Deselecting the chip starts a complete job if writes are enabled, and resets it. */
  function Deselect(d: Chip): Chip {
    var e := d.(cs := false, phase := Waiting);
    if d.phase.Complete? && d.enabled && d.phase.job.addr < |d.mem| then
      e.(mem := Apply(d.mem, d.phase.job), status := true,
         busy := Delay(d),
         delays := if d.delays == [] then [] else d.delays[1..])
    else e
  }

  /** The levels on the pins change. */
  function Drive(c: Part, d: Chip, cs: bool, sk: bool, di: bool): Chip
    requires |d.mem| == Words(c)
  {
    if d.cs && !cs then Deselect(d).(sk := sk)
    else if !d.cs then d.(cs := cs, sk := sk)
    else if !d.sk && sk then Clock(c, d, di).(sk := true)
    else d.(sk := sk)
  }

  /** The level of DO. */
  function Out(d: Chip): bool {
    if d.phase.Sending? then d.phase.out else d.status && d.busy == 0
  }

  // ---------------------------------------------------------------- sequences of bits

  /** The chip after one bit was clocked in. */
  function Send(c: Part, d: Chip, b: bool): Chip
    requires |d.mem| == Words(c)
  {
    Clock(c, d, b).(sk := false)
  }

  /** The chip after a sequence of bits was clocked in. */
  function Feed(c: Part, d: Chip, s: seq<bool>): (e: Chip)
    requires |d.mem| == Words(c)
    ensures e.mem == d.mem && e.cs == d.cs && e.busy == d.busy && e.delays == d.delays
    decreases |s|
  {
    if s == [] then d else Feed(c, Send(c, d, s[0]), s[1..])
  }

  /** What a shift register holds after the bits s came in. */
  function Shifted(acc: nat, s: seq<bool>): nat
    decreases |s|
  {
    if s == [] then acc else Shifted(2 * acc + One(s[0]), s[1..])
  }

  lemma BitsFirst(v: nat, n: nat)
    requires n > 0
    ensures Bits(v, n)[0] == Bit(v, n - 1) && Bits(v, n)[1..] == Bits(v, n - 1)
  {
  }

  lemma FeedNext(c: Part, d: Chip, v: nat, n: nat)
    requires |d.mem| == Words(c) && n > 0
    ensures Feed(c, d, Bits(v, n)) == Feed(c, Send(c, d, Bit(v, n - 1)), Bits(v, n - 1))
  {
    BitsFirst(v, n);
  }

  /** The first bit to go is the top one of those to send. */
  lemma TopBitFirst(v: nat, n: nat)
    requires n > 0
    ensures Bits(v, n)[0] <==> v % Pow2(n) >= Pow2(n - 1)
    ensures Bits(v, n)[1..] == Bits(v, n - 1)
  {
    BitsFirst(v, n);
    ModDouble(v, Pow2(n - 1));
  }

  /** The instructions on the wire, as the data sheets give them: a start bit, two bits of
      opcode, and for EWEN and EWDS two more. */
  lemma OpcodesOnWire()
    ensures Bits(READ_OPCODE, 3) == [true, true, false] && Bits(WRITE_OPCODE, 3) == [true, false, true]
    ensures Bits(ERASE_OPCODE, 3) == [true, true, true]
    ensures Bits(EWEN_OPCODE, 5) == [true, false, false, true, true]
    ensures Bits(EWDS_OPCODE, 5) == [true, false, false, false, false]
  {
    ThreeBits(READ_OPCODE);
    ThreeBits(WRITE_OPCODE);
    ThreeBits(ERASE_OPCODE);
    FiveBits(EWEN_OPCODE);
    FiveBits(EWDS_OPCODE);
  }

  lemma ThreeBits(v: nat)
    ensures Bits(v, 3) == [v / 4 % 2 == 1, v / 2 % 2 == 1, v % 2 == 1]
  {
    assert Pow2(0) == 1 && Pow2(1) == 2 && Pow2(2) == 4;
    assert Bits(v, 3)[0] == Bit(v, 2) && Bits(v, 3)[1] == Bit(v, 1) && Bits(v, 3)[2] == Bit(v, 0);
  }

  lemma FiveBits(v: nat)
    ensures Bits(v, 5) == [v / 16 % 2 == 1, v / 8 % 2 == 1, v / 4 % 2 == 1, v / 2 % 2 == 1, v % 2 == 1]
  {
    assert Pow2(0) == 1 && Pow2(1) == 2 && Pow2(2) == 4 && Pow2(3) == 8 && Pow2(4) == 16;
    assert Bits(v, 5)[0] == Bit(v, 4) && Bits(v, 5)[1] == Bit(v, 3) && Bits(v, 5)[2] == Bit(v, 2);
    assert Bits(v, 5)[3] == Bit(v, 1) && Bits(v, 5)[4] == Bit(v, 0);
  }

  /** Bits shifted in highest first add up to the number they came from. */
  lemma {:induction false} ShiftedBits(acc: nat, v: nat, n: nat, p: nat)
    requires p == Pow2(n)
    ensures Shifted(acc, Bits(v, n)) == acc * p + v % p
    decreases n
  {
    if n > 0 {
      BitsFirst(v, n);
      var q, b := Pow2(n - 1), One(Bit(v, n - 1));
      ShiftedBits(2 * acc + b, v, n - 1, q);
      ModDouble(v, q);
      Distribute(acc, b, q);
    }
  }

  lemma {:induction false} FeedCommand(c: Part, d: Chip, acc: nat, k: nat, s: seq<bool>)
    requires |d.mem| == Words(c) && !d.sk
    requires d.phase == Command(acc, k) && k + |s| <= 2 + AddrBits(c) && k < 2 + AddrBits(c)
    ensures var v := Shifted(acc, s);
            Feed(c, d, s) ==
            if k + |s| < 2 + AddrBits(c) then d.(phase := Command(v, k + |s|))
            else d.(phase := Decode(c, d.mem, v), enabled := Enables(c, v, d.enabled))
    decreases |s|
  {
    if s != [] && k + 1 < 2 + AddrBits(c) {
      FeedCommand(c, Send(c, d, s[0]), 2 * acc + One(s[0]), k + 1, s[1..]);
    }
  }

  lemma {:induction false} FeedData(c: Part, d: Chip, a: nat, acc: nat, k: nat, s: seq<bool>)
    requires |d.mem| == Words(c) && !d.sk
    requires d.phase == Receiving(a, acc, k) && k + |s| <= 16 && k < 16
    ensures var v := Shifted(acc, s);
            Feed(c, d, s) ==
            d.(phase := if k + |s| < 16 then Receiving(a, v, k + |s|) else Complete(Program(a, v)))
    decreases |s|
  {
    if s != [] && k + 1 < 16 {
      FeedData(c, Send(c, d, s[0]), a, 2 * acc + One(s[0]), k + 1, s[1..]);
    }
  }

  // ---------------------------------------------------------------- commands

  /** Selected, clock low, waiting for a start bit and not busy. */
  predicate Ready(c: Part, d: Chip) {
    |d.mem| == Words(c) && d.cs && !d.sk && d.phase.Waiting? && d.busy == 0
  }

  /** A start bit and n bits after it; p is 2 to the n. */
  lemma Start(c: Part, d: Chip, op: nat, n: nat, p: nat)
    requires Ready(c, d) && 0 < n < 2 + AddrBits(c) && p == Pow2(n) && p <= op < 2 * p
    ensures Feed(c, d, Bits(op, n + 1)) == d.(phase := Command(op - p, n), status := false)
  {
    OpcodeBits(op, n, p);
    FeedCommand(c, Send(c, d, true), 0, 0, Bits(op, n));
  }

  lemma OpcodeBits(op: nat, n: nat, p: nat)
    requires p == Pow2(n) && p <= op < 2 * p
    ensures Bits(op, n + 1)[0] && Bits(op, n + 1)[1..] == Bits(op, n) && Shifted(0, Bits(op, n)) == op - p
  {
    BitsFirst(op, n + 1);
    DivModUnique(p, 1, op - p, op);
    ShiftedBits(0, op, n, p);
  }

  lemma Powers()
    ensures Pow2(2) == 4 && Pow2(4) == 16 && Pow2(6) == 64 && Pow2(8) == 256 && Pow2(16) == WORD
  {
    assert Pow2(12) == 4096;
  }

  lemma Splits(c: Part, op: nat, reg: nat)
    ensures var v := if c.C46? then op * 64 + reg % 64 else op * 256 + reg % 256;
            OpOf(c, v) == op && AddrOf(c, v) == AddrOf(c, reg)
  {
    Mod128(op, reg % 256);
    Mod128(reg / 256, reg % 256);
  }

  lemma Mod128(x: nat, r: nat)
    ensures (x * 256 + r) % 128 == r % 128
  {
    DivModUnique(128, 2 * x + r / 128, r % 128, x * 256 + r);
  }

  /** An instruction's opcode and address come apart again. */
  lemma DecodeIs(c: Part, op: nat, reg: nat)
    ensures OpOf(c, Shifted(op, Bits(reg, AddrBits(c)))) == op
    ensures AddrOf(c, Shifted(op, Bits(reg, AddrBits(c)))) == AddrOf(c, reg)
  {
    Powers();
    if c.C46? {
      ShiftedBits(op, reg, 6, 64);
    } else {
      ShiftedBits(op, reg, 8, 256);
    }
    Splits(c, op, reg);
  }

  lemma SplitsTop(c: Part, top: nat, reg: nat)
    requires top <= 3
    ensures var v := if c.C46? then top * 16 + reg % 16 else top * 64 + reg % 64;
            OpOf(c, v) == 0 && TopOf(c, v) == top
  {
  }

  lemma EnableIs(c: Part, top: nat, reg: nat, enabled: bool)
    requires top == 3 || top == 0
    ensures OpOf(c, Shifted(top, Bits(reg, AddrBits(c) - 2))) == 0
    ensures Enables(c, Shifted(top, Bits(reg, AddrBits(c) - 2)), enabled) == (top == 3)
  {
    Powers();
    if c.C46? {
      ShiftedBits(top, reg, 4, 16);
    } else {
      ShiftedBits(top, reg, 6, 64);
    }
    SplitsTop(c, top, reg);
  }

  /** Three bits of opcode, then the address. */
  function Issue(c: Part, d: Chip, op: nat, reg: nat): (e: Chip)
    requires |d.mem| == Words(c)
    ensures e.mem == d.mem
  {
    Feed(c, Feed(c, d, Bits(op, 3)), Bits(reg, AddrBits(c)))
  }

  lemma IssueIs(c: Part, d: Chip, op: nat, reg: nat)
    requires Ready(c, d) && 4 <= op < 8
    ensures var v := Shifted(op - 4, Bits(reg, AddrBits(c)));
            Issue(c, d, op, reg) ==
            d.(phase := Decode(c, d.mem, v), enabled := Enables(c, v, d.enabled), status := false)
  {
    Powers();
    Start(c, d, op, 2, 4);
    FeedCommand(c, Feed(c, d, Bits(op, 3)), op - 4, 2, Bits(reg, AddrBits(c)));
  }

  lemma IssueRead(c: Part, d: Chip, reg: nat)
    requires Ready(c, d)
    ensures Issue(c, d, READ_OPCODE, reg) == d.(phase := Sending(d.mem[AddrOf(c, reg)], 0, false), status := false)
  {
    IssueIs(c, d, READ_OPCODE, reg);
    DecodeIs(c, 2, reg);
  }

  lemma IssueErase(c: Part, d: Chip, reg: nat)
    requires Ready(c, d)
    ensures Issue(c, d, ERASE_OPCODE, reg) == d.(phase := Complete(Erase(AddrOf(c, reg))), status := false)
  {
    IssueIs(c, d, ERASE_OPCODE, reg);
    DecodeIs(c, 3, reg);
  }

  lemma IssueWrite(c: Part, d: Chip, reg: nat, data: nat)
    requires Ready(c, d) && data < WORD
    ensures Feed(c, Issue(c, d, WRITE_OPCODE, reg), Bits(data, 16))
         == d.(phase := Complete(Program(AddrOf(c, reg), data)), status := false)
  {
    IssueIs(c, d, WRITE_OPCODE, reg);
    DecodeIs(c, 1, reg);
    FeedData(c, Issue(c, d, WRITE_OPCODE, reg), AddrOf(c, reg), 0, 0, Bits(data, 16));
    Powers();
    ShiftedBits(0, data, 16, WORD);
  }

  /** Five bits of opcode, then the rest of the address bits, which do not matter. */
  lemma IssueEnable(c: Part, d: Chip, op: nat, reg: nat)
    requires Ready(c, d) && (op == EWEN_OPCODE || op == EWDS_OPCODE)
    ensures Feed(c, Feed(c, d, Bits(op, 5)), Bits(reg, AddrBits(c) - 2))
         == d.(phase := Done, enabled := op == EWEN_OPCODE, status := false)
  {
    Powers();
    Start(c, d, op, 4, 16);
    FeedCommand(c, Feed(c, d, Bits(op, 5)), op - 16, 4, Bits(reg, AddrBits(c) - 2));
    EnableIs(c, op - 16, reg, d.enabled);
  }

  /** A word sent highest bit first is received as it was. */
  lemma WholeWord(w: nat)
    requires w < WORD
    ensures Shifted(0, Bits(w, 16)) == w
  {
    Powers();
    ShiftedBits(0, w, 16, WORD);
  }

  /** Each clock of a read puts the next bit on DO. */
  lemma ReadBit(c: Part, d: Chip, w: nat, n: nat, b: bool)
    requires |d.mem| == Words(c) && !d.sk && d.phase.Sending? && d.phase.word == w && d.phase.n == n < 16
    ensures Send(c, d, b) == d.(phase := Sending(w, n + 1, Bit(w, 15 - n)))
  {
  }

  /** After k clocks of a read DO shows bit 16 - k of the word, the highest bit first. */
  lemma {:induction false} SendsHighestFirst(c: Part, d: Chip, w: nat, s: seq<bool>)
    requires |d.mem| == Words(c) && !d.sk && d.phase == Sending(w, 0, false) && 0 < |s| <= 16
    ensures var e := Feed(c, d, s);
            e.phase == Sending(w, |s|, w / Pow2(16 - |s|) % 2 == 1) && (Out(e) <==> w / Pow2(16 - |s|) % 2 == 1)
  {
    SendsFrom(c, d, w, 0, s);
  }

  lemma {:induction false} SendsFrom(c: Part, d: Chip, w: nat, n: nat, s: seq<bool>)
    requires |d.mem| == Words(c) && !d.sk && d.phase.Sending? && d.phase.word == w && d.phase.n == n
    requires 0 < |s| && n + |s| <= 16
    ensures Feed(c, d, s).phase == Sending(w, n + |s|, Bit(w, 16 - n - |s|))
    decreases |s|
  {
    ReadBit(c, d, w, n, s[0]);
    if |s| > 1 {
      SendsFrom(c, Send(c, d, s[0]), w, n + 1, s[1..]);
    } else {
      assert s[1..] == [];
    }
  }

  /** Receiving the next bit of w leaves one bit less to come. */
  lemma ShiftedNext(acc: nat, w: nat, n: nat)
    requires n > 0
    ensures Shifted(acc, Bits(w, n)) == Shifted(2 * acc + One(Bit(w, n - 1)), Bits(w, n - 1))
  {
    BitsFirst(w, n);
  }
}
