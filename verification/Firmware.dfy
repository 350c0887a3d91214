/**
 PHY firmware images: the format check, the static check of the code, and the interpreter
 that runs it.  Words are 32-bit little-endian; the interpreter's index is a 64-bit size_t.
 */
module Firmware {
  import opened Options

  const OPCODE_SIZE := 4                     // FW_OPCODE_SIZE
  const HEADER_SIZE := 45                    // sizeof(struct fw_info), packed
  const START_AT := 36                       // offset of fw_start
  const LEN_AT := 40                         // offset of fw_len
  const SIZE_T := 0x1_0000_0000_0000_0000

  type Byte = b: int | 0 <= b < 256

  // ---------------------------------------------------------------- format

  /** A little-endian 32-bit word. */
  function Le32(data: seq<Byte>, at: nat): (w: nat)
    requires at + OPCODE_SIZE <= |data|
    ensures w < 0x1_0000_0000
  {
    var b0: int, b1: int, b2: int, b3: int := data[at], data[at + 1], data[at + 2], data[at + 3];
    b0 + 0x100 * b1 + 0x10000 * b2 + 0x100_0000 * b3
  }

  function Sum(data: seq<Byte>): nat {
    if data == [] then 0 else Sum(data[..|data| - 1]) + data[|data| - 1]
  }

  /** phy_action: where the code is in the file, and how many words. */
  datatype Code = Code(start: nat, size: nat)

  /** The file has a header. */
  predicate Headed(data: seq<Byte>)
    requires |data| >= OPCODE_SIZE
  {
    Le32(data, 0) == 0
  }

  /** What the format promises: the code words, all inside the file. */
  predicate Formatted(data: seq<Byte>, code: Code) {
    && |data| >= OPCODE_SIZE
    && code.start + OPCODE_SIZE * code.size <= |data|
    && if Headed(data) then
         && |data| >= HEADER_SIZE && Sum(data) % 256 == 0
         && code.start == Le32(data, START_AT) && code.size == Le32(data, LEN_AT)
       else
         code.start == 0 && OPCODE_SIZE * code.size == |data|
  }

  /** The checksum loop, in a byte. */
  method AddUp(data: seq<Byte>) returns (checksum: int)
    ensures checksum == Sum(data) % 256
  {
    checksum := 0;
    for i := 0 to |data|
      invariant checksum == Sum(data[..i]) % 256
    {
      assert data[..i + 1][..i] == data[..i];
      checksum := (checksum + data[i] as int) % 256;
    }
    assert data[..|data|] == data;
  }

  /** rtl8125_fw_format_ok accepts exactly the files that have such code. */
  method FormatOk(data: seq<Byte>) returns (r: Option<Code>)
    ensures r.Some? ==> Formatted(data, r.value)
    ensures r.None? ==> forall c: Code :: !Formatted(data, c)
  {
    if |data| < OPCODE_SIZE {
      return None;
    }
    if Headed(data) {
      if |data| < HEADER_SIZE {
        return None;
      }
      var checksum := AddUp(data);
      if checksum != 0 {
        return None;
      }
      var start := Le32(data, START_AT);
      if start > |data| {
        return None;
      }
      var size := Le32(data, LEN_AT);
      if size > (|data| - start) / OPCODE_SIZE {
        return None;
      }
      return Some(Code(start, size));
    } else {
      if |data| % OPCODE_SIZE != 0 {
        return None;
      }
      return Some(Code(0, |data| / OPCODE_SIZE));
    }
  }

  /** The words of the code. */
  function Words(data: seq<Byte>, code: Code): (p: seq<nat>)
    requires code.start + OPCODE_SIZE * code.size <= |data|
    ensures |p| == code.size
  {
    seq(code.size, i requires 0 <= i < code.size => Le32(data, code.start + OPCODE_SIZE * i))
  }

  /** Sum adds up all bytes: it is additive, and a single byte's sum is that byte. */
  lemma {:induction false} SumIs(a: seq<Byte>, b: seq<Byte>, x: Byte)
    ensures Sum([]) == 0 && Sum([x]) == x && Sum(a + b) == Sum(a) + Sum(b)
    decreases |b|
  {
    assert [x][..0] == [];
    if b == [] {
      assert a + b == a;
    } else {
      SumIs(a, b[..|b| - 1], x);
      assert (a + b)[..|a + b| - 1] == a + b[..|b| - 1];
    }
  }

  /** The format in bytes: without a header, which starts with four zero bytes, the file is code
      throughout; with one it is 45 bytes or longer, its bytes add up to a multiple of 256, and
      start and length of the code stand at 36 and 40, lowest byte first. */
  lemma FormattedMeans(data: seq<Byte>, code: Code)
    ensures Formatted(data, code) <==>
            && |data| >= 4 && code.start + 4 * code.size <= |data|
            && if data[0] == 0 && data[1] == 0 && data[2] == 0 && data[3] == 0 then
                 && |data| >= 45 && Sum(data) % 256 == 0
                 && code.start == data[36] as int + 0x100 * data[37] as int
                                + 0x1_0000 * data[38] as int + 0x100_0000 * data[39] as int
                 && code.size == data[40] as int + 0x100 * data[41] as int
                                + 0x1_0000 * data[42] as int + 0x100_0000 * data[43] as int
               else code.start == 0 && 4 * code.size == |data|
  {
  }

  /** The i-th word of the code, lowest byte first. */
  lemma WordBytes(data: seq<Byte>, code: Code, i: nat)
    requires code.start + 4 * code.size <= |data| && i < code.size
    ensures var at := code.start + 4 * i;
            Words(data, code)[i] == data[at] as int + 0x100 * data[at + 1] as int
                                    + 0x1_0000 * data[at + 2] as int + 0x100_0000 * data[at + 3] as int
  {
  }

  // ---------------------------------------------------------------- instructions

  datatype Op =
    | Read | Or | And | Jump | Select | ClearCount | Write | CountSkip
    | EqSkip | NeqSkip | WritePrevious | Skip | Delay | Invalid

  function OpOf(w: nat): Op {
    var o := w / 0x1000_0000;
    if o == 0x0 then Read else if o == 0x1 then Or else if o == 0x2 then And
    else if o == 0x3 then Jump else if o == 0x4 then Select else if o == 0x7 then ClearCount
    else if o == 0x8 then Write else if o == 0x9 then CountSkip else if o == 0xa then EqSkip
    else if o == 0xb then NeqSkip else if o == 0xc then WritePrevious else if o == 0xd then Skip
    else if o == 0xe then Delay else Invalid
  }

  function Regno(w: nat): nat {
    w / 0x1_0000 % 0x1000
  }

  function Data(w: nat): nat {
    w % 0x1_0000
  }

  /** Where a taken jump or skip at i goes, in size_t arithmetic: the case changes the index,
      and the loop header then adds one. */
  function Target(w: nat, i: nat): nat {
    match OpOf(w)
    case Jump => ((i - (Regno(w) + 1)) % SIZE_T + 1) % SIZE_T
    case CountSkip => ((i + 1) % SIZE_T + 1) % SIZE_T
    case EqSkip => ((i + Regno(w)) % SIZE_T + 1) % SIZE_T
    case NeqSkip => ((i + Regno(w)) % SIZE_T + 1) % SIZE_T
    case Skip => ((i + Regno(w)) % SIZE_T + 1) % SIZE_T
    case _ => (i + 1) % SIZE_T
  }

  predicate Moves(op: Op) {
    op.Jump? || op.CountSkip? || op.EqSkip? || op.NeqSkip? || op.Skip?
  }

  // ---------------------------------------------------------------- static check

  /** An instruction that can do no harm at position i: it is a known one, it selects an
      existing bus, and if it jumps or skips it lands on an instruction. */
  predicate Fine(p: seq<nat>, i: nat)
    requires i < |p|
  {
    var op := OpOf(p[i]);
    && !op.Invalid?
    && (op.Select? ==> Data(p[i]) <= 1)
    && (Moves(op) ==> Target(p[i], i) < |p|)
  }

  /** A backward jump stays inside exactly if it does not reach past the first word: the wrap
      of a jump to word 0 through size_t -1 is harmless, any further one is far outside. */
  lemma JumpTarget(p: seq<nat>, i: nat)
    requires i < |p| <= SIZE_T / 4 && OpOf(p[i]).Jump?
    ensures Target(p[i], i) < |p| <==> Regno(p[i]) <= i
    ensures Regno(p[i]) <= i ==> Target(p[i], i) == i - Regno(p[i])
  {
    var k := Regno(p[i]);
    if k < i {
      assert (i - (k + 1)) % SIZE_T == i - k - 1;
    } else {
      assert (i - (k + 1)) % SIZE_T == i - k - 1 + SIZE_T;
    }
  }

  /** A skip never wraps. */
  lemma ForwardTarget(w: nat, i: nat)
    requires i < SIZE_T / 4
    ensures OpOf(w).CountSkip? ==> Target(w, i) == i + 2
    ensures OpOf(w).EqSkip? || OpOf(w).NeqSkip? || OpOf(w).Skip? ==> Target(w, i) == i + 1 + Regno(w)
  {
  }

  /** What the landing condition comes to for each instruction. */
  lemma FineMeans(p: seq<nat>, i: nat)
    requires i < |p| <= SIZE_T / 4
    ensures Fine(p, i) <==>
              match OpOf(p[i])
              case Select => Data(p[i]) <= 1
              case Jump => Regno(p[i]) <= i
              case CountSkip => i + 2 < |p|
              case EqSkip => i + 1 + Regno(p[i]) < |p|
              case NeqSkip => i + 1 + Regno(p[i]) < |p|
              case Skip => i + 1 + Regno(p[i]) < |p|
              case Invalid => false
              case _ => true
  {
    if OpOf(p[i]).Jump? {
      JumpTarget(p, i);
    } else {
      ForwardTarget(p[i], i);
    }
  }

  /** rtl8125_fw_data_ok accepts a program exactly if all its instructions are fine. */
  method DataOk(p: seq<nat>) returns (ok: bool)
    requires |p| <= SIZE_T / 4
    ensures ok <==> forall i :: 0 <= i < |p| ==> Fine(p, i)
  {
    var index := 0;
    while index < |p|
      invariant 0 <= index <= |p|
      invariant forall i :: 0 <= i < index ==> Fine(p, i)
    {
      var val, regno := Data(p[index]), Regno(p[index]);
      var out := false;
      match OpOf(p[index]) {
        case Select => out := val > 1;
        case Jump => out := regno > index;
        case CountSkip => out := index + 2 >= |p|;
        case EqSkip => out := index + 1 + regno >= |p|;
        case NeqSkip => out := index + 1 + regno >= |p|;
        case Skip => out := index + 1 + regno >= |p|;
        case Invalid => out := true;
        case _ =>
      }
      FineMeans(p, index);
      if out {
        return false;
      }
      index := index + 1;
    }
    return true;
  }

  // ---------------------------------------------------------------- interpreter

  datatype Bus = Phy | Mac

  datatype Access = Access(bus: Bus, regno: nat, data: nat)

  /** The interpreter's variables, the accesses it made, and whether it met a zero word. */
  datatype Cpu = Cpu(index: nat, predata: nat, count: nat, bus: Bus,
                     fetched: nat, writes: seq<Access>, stopped: bool)

  const BOOT := Cpu(0, 0, 0, Phy, 0, [], false)

  type U32 = x: int | 0 <= x < 0x1_0000_0000

  /** Any behaviour of the registers: the value of the n-th read, given bus and register. */
  type Registers = (nat, Bus, nat) -> U32

  /** Bitwise and. */
  function BitAnd(a: nat, b: nat): nat
    decreases a
  {
    if a == 0 then 0 else 2 * BitAnd(a / 2, b / 2) + if a % 2 == 1 && b % 2 == 1 then 1 else 0
  }

  /** Bitwise or. */
  function BitOr(a: nat, b: nat): nat
    decreases a
  {
    if a == 0 then b else 2 * BitOr(a / 2, b / 2) + if a % 2 == 1 || b % 2 == 1 then 1 else 0
  }

  /** Bit k of v. */
  predicate BitAt(v: nat, k: nat)
    decreases k
  {
    if k == 0 then v % 2 == 1 else BitAt(v / 2, k - 1)
  }

  predicate Running(p: seq<nat>, c: Cpu) {
    c.index < |p| && !c.stopped
  }

  /** Does the instruction change the index beyond the loop's increment? */
  predicate Taken(w: nat, c: Cpu) {
    match OpOf(w)
    case Jump => true
    case CountSkip => c.count == Data(w)
    case EqSkip => c.predata == Data(w)
    case NeqSkip => c.predata != Data(w)
    case Skip => true
    case _ => false
  }

  /** One pass of the interpreter's loop. */
  function Step(p: seq<nat>, read: Registers, c: Cpu): Cpu
    requires Running(p, c)
  {
    var w := p[c.index];
    if w == 0 then c.(stopped := true)
    else
      var next := if Taken(w, c) then Target(w, c.index) else (c.index + 1) % SIZE_T;
      match OpOf(w)
      case Read =>
        c.(index := next, predata := read(c.fetched, c.bus, Regno(w)), count := c.count + 1, fetched := c.fetched + 1)
      case Or => c.(index := next, predata := BitOr(c.predata, Data(w)))
      case And => c.(index := next, predata := BitAnd(c.predata, Data(w)))
      case Select => c.(index := next, bus := if Data(w) != 0 then Mac else Phy)
      case ClearCount => c.(index := next, count := 0)
      case Write => c.(index := next, writes := c.writes + [Access(c.bus, Regno(w), Data(w))])
      case WritePrevious =>
        c.(index := next, writes := c.writes + [Access(c.bus, Regno(w), c.predata % 0x1_0000)])
      case _ => c.(index := next)
  }

  lemma {:induction false} AndOrBits(a: nat, b: nat, k: nat)
    ensures BitAt(BitAnd(a, b), k) <==> BitAt(a, k) && BitAt(b, k)
    ensures BitAt(BitOr(a, b), k) <==> BitAt(a, k) || BitAt(b, k)
    decreases k
  {
    if k == 0 {
    } else {
      ZeroBits(k);
      AndOrBits(a / 2, b / 2, k - 1);
    }
  }

  lemma {:induction false} ZeroBits(k: nat)
    ensures !BitAt(0, k)
  {
    if k > 0 {
      ZeroBits(k - 1);
    }
  }

  /** What a pass does, from the bits of the word: opcode in the top four, register, distance or
      bus in the next twelve, data in the low sixteen. */
  lemma StepMeans(p: seq<nat>, read: Registers, c: Cpu)
    requires Running(p, c) && |p| <= SIZE_T / 4 && p[c.index] != 0
    ensures var w, d := p[c.index], Step(p, read, c);
            var op, reg, data := w / 0x1000_0000, w / 0x1_0000 % 0x1000, w % 0x1_0000;
            && !d.stopped
            && d.predata == (if op == 0x0 then read(c.fetched, c.bus, reg)
                             else if op == 0x1 then BitOr(c.predata, data)
                             else if op == 0x2 then BitAnd(c.predata, data) else c.predata)
            && d.bus == (if op == 0x4 then if data != 0 then Mac else Phy else c.bus)
            && d.count == (if op == 0x0 then c.count + 1 else if op == 0x7 then 0 else c.count)
            && d.fetched == (if op == 0x0 then c.fetched + 1 else c.fetched)
            && d.writes == c.writes + (if op == 0x8 then [Access(c.bus, reg, data)]
                                       else if op == 0xc then [Access(c.bus, reg, c.predata % 0x1_0000)] else [])
  {
  }

  /** Where it goes on. */
  lemma StepGoesTo(p: seq<nat>, read: Registers, c: Cpu)
    requires Running(p, c) && |p| <= SIZE_T / 4 && p[c.index] != 0
    ensures var w, d := p[c.index], Step(p, read, c);
            var op, reg, data := w / 0x1000_0000, w / 0x1_0000 % 0x1000, w % 0x1_0000;
            && (op == 0x3 && reg <= c.index ==> d.index == c.index - reg)
            && (op == 0x9 ==> d.index == c.index + 1 + if c.count == data then 1 else 0)
            && (op == 0xa ==> d.index == c.index + 1 + if c.predata == data then reg else 0)
            && (op == 0xb ==> d.index == c.index + 1 + if c.predata == data then 0 else reg)
            && (op == 0xd ==> d.index == c.index + 1 + reg)
            && (op != 0x3 && op != 0x9 && op != 0xa && op != 0xb && op != 0xd ==> d.index == c.index + 1)
  {
    if OpOf(p[c.index]).Jump? {
      JumpTarget(p, c.index);
    } else {
      ForwardTarget(p[c.index], c.index);
    }
  }

  /** A zero word ends the program and does nothing else. */
  lemma ZeroStops(p: seq<nat>, read: Registers, c: Cpu, n: nat)
    requires Running(p, c) && p[c.index] == 0 && n > 0
    ensures Run(p, read, c, n) == c.(stopped := true)
  {
    assert Run(p, read, Step(p, read, c), n - 1) == Step(p, read, c);
  }

  /** At most n passes. */
  function Run(p: seq<nat>, read: Registers, c: Cpu, n: nat): Cpu
    decreases n
  {
    if n == 0 || !Running(p, c) then c else Run(p, read, Step(p, read, c), n - 1)
  }

  // ---------------------------------------------------------------- soundness

  ghost predicate Accepted(p: seq<nat>) {
    |p| <= SIZE_T / 4 && forall i :: 0 <= i < |p| ==> Fine(p, i)
  }

  lemma StepInside(p: seq<nat>, read: Registers, c: Cpu)
    requires Accepted(p) && Running(p, c)
    ensures Step(p, read, c).index <= |p|
  {
    assert Fine(p, c.index);
  }

  lemma {:induction false} StaysInside(p: seq<nat>, read: Registers, c: Cpu, n: nat)
    requires Accepted(p) && c.index <= |p|
    ensures Run(p, read, c, n).index <= |p|
    decreases n
  {
    if n > 0 && Running(p, c) {
      StepInside(p, read, c);
      StaysInside(p, read, Step(p, read, c), n - 1);
    }
  }

  /** Soundness of the two checks: whatever the registers return and however long it runs, the
      interpreter's index stays within the code; each word it fetches lies inside the file,
      and is an instruction the interpreter handles. */
  lemma CheckedCodeIsSafe(data: seq<Byte>, code: Code, read: Registers, n: nat)
    requires |data| < SIZE_T && Formatted(data, code) && Accepted(Words(data, code))
    ensures var c := Run(Words(data, code), read, BOOT, n);
            && c.index <= code.size
            && (c.index < code.size ==>
                  && code.start + OPCODE_SIZE * c.index + OPCODE_SIZE <= |data|
                  && !OpOf(Le32(data, code.start + OPCODE_SIZE * c.index)).Invalid?)
  {
    var p := Words(data, code);
    StaysInside(p, read, BOOT, n);
    var c := Run(p, read, BOOT, n);
    if c.index < code.size {
      assert Fine(p, c.index);
    }
  }

  /** Accepted code need not halt: a jump to itself passes the checks and runs forever. */
  lemma {:induction false} AcceptedMayLoop(read: Registers, c: Cpu, n: nat)
    requires c.index == 0 && !c.stopped
    ensures Accepted([0x3000_0000]) && Run([0x3000_0000], read, c, n) == c
    decreases n
  {
    assert OpOf(0x3000_0000) == Jump && Regno(0x3000_0000) == 0;
    JumpTarget([0x3000_0000], 0);
    if n > 0 {
      assert Step([0x3000_0000], read, c) == c;
      AcceptedMayLoop(read, c, n - 1);
    }
  }
}
