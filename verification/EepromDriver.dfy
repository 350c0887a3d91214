/**
 The driver's side of the serial EEPROM: bit-banging the Cfg9346 register.
 */
module EepromDriver {
  import opened Eeprom

  /** The bits of Cfg9346 in use: EEM1, EECS, EESK, EEDI, EEDO. */
  datatype Pins = Pins(em1: bool, cs: bool, sk: bool, di: bool, d0: bool)

  datatype Kind = TypeNone | Type93C46 | Type93C56

  const MAGICS: set<nat> := {0x8129, 0x8128}

  class Master {
    const part: Part
    var kind: Kind           // eeprom_type
    var pins: Pins           // as last written
    var chip: Chip

    /** The type found at start-up fits the part, and the chip sees the pins. */
    ghost predicate Valid()
      reads this
    {
      && (kind == Type93C46 ==> part.C46?) && (kind == Type93C56 ==> !part.C46?)
      && |chip.mem| == Words(part)
      && chip.cs == (pins.em1 && pins.cs) && chip.sk == pins.sk
    }

    /** In the middle of an access: selected, clock low. */
    ghost predicate Selected()
      reads this
    {
      Valid() && pins.em1 && pins.cs && !pins.sk
    }

    /** Between accesses: nothing selected, the chip idle. */
    ghost predicate Idle()
      reads this
    {
      Valid() && !chip.cs && chip.phase.Waiting? && chip.busy == 0
    }

    constructor (kind: Kind, part: Part, chip: Chip)
      requires (kind == Type93C46 ==> part.C46?) && (kind == Type93C56 ==> !part.C46?)
      requires |chip.mem| == Words(part) && !chip.cs && !chip.sk
      ensures Valid() && this.kind == kind && this.part == part && this.chip == chip
    {
      this.kind, this.part, this.chip := kind, part, chip;
      pins := Pins(false, false, false, false, false);
    }

    /** RTL_R8(Cfg9346): DO shows up in EEDO; time passes for a busy chip. */
    method ReadReg() returns (x: Pins)
      modifies `chip
      ensures x == pins.(d0 := Out(old(chip)))
      ensures chip == old(chip).(busy := if old(chip).busy > 0 then old(chip).busy - 1 else 0)
    {
      x := pins.(d0 := Out(chip));
      chip := chip.(busy := if chip.busy > 0 then chip.busy - 1 else 0);
    }

    /** RTL_W8(Cfg9346). */
    method WriteReg(x: Pins)
      requires Valid()
      modifies `pins, `chip
      ensures Valid() && pins == x
      ensures chip == Drive(part, old(chip), x.em1 && x.cs, x.sk, x.di)
    {
      pins := x;
      chip := Drive(part, chip, x.em1 && x.cs, x.sk, x.di);
    }

    method RaiseClock(x: Pins) returns (y: Pins)
      requires Valid()
      modifies `pins, `chip
      ensures Valid() && y == x.(sk := true) && pins == y
      ensures chip == Drive(part, old(chip), x.em1 && x.cs, true, x.di)
    {
      y := x.(sk := true);
      WriteReg(y);
    }

    method LowerClock(x: Pins) returns (y: Pins)
      requires Valid()
      modifies `pins, `chip
      ensures Valid() && y == x.(sk := false) && pins == y
      ensures chip == Drive(part, old(chip), x.em1 && x.cs, false, x.di)
    {
      y := x.(sk := false);
      WriteReg(y);
    }

    /** Put one bit on DI and clock it in. */
    method ClockOut(x: Pins) returns (y: Pins)
      requires Selected() && x.em1 && x.cs && !x.sk
      modifies `pins, `chip
      ensures Selected() && y == x && pins == x && chip == Send(part, old(chip), x.di)
    {
      WriteReg(x);
      y := RaiseClock(x);
      y := LowerClock(y);
    }

    /** The bit of data under the mask, which is the highest of the k bits to go. */
    method ShiftOutBit(data: nat, mask: nat, ghost k: nat, x: Pins) returns (y: Pins)
      requires Selected() && x.em1 && x.cs && !x.sk && k > 0 && mask == Pow2(k - 1) && mask > 0
      modifies `pins, `chip
      ensures Selected() && y.em1 && y.cs && !y.sk
      ensures Feed(part, chip, Bits(data, k - 1)) == Feed(part, old(chip), Bits(data, k))
    {
      FeedNext(part, chip, data, k);
      y := ClockOut(x.(di := data / mask % 2 == 1));
    }

    /** The low `count` bits of data, highest first, each with one clock. */
    method ShiftOutBits(data: nat, count: nat)
      requires Selected() && count > 0 && chip.busy == 0
      modifies `pins, `chip
      ensures Selected() && chip == Feed(part, old(chip), Bits(data, count))
    {
      var mask := Pow2(count - 1);
      ghost var k: nat := count;
      var x := ReadReg();
      x := x.(di := false, d0 := false);
      while mask > 0
        invariant k <= count && (k > 0 ==> mask == Pow2(k - 1)) && (k == 0 ==> mask == 0)
        invariant Selected() && x.em1 && x.cs && !x.sk
        invariant Feed(part, chip, Bits(data, k)) == Feed(part, old(chip), Bits(data, count))
        decreases mask
      {
        x := ShiftOutBit(data, mask, k, x);
        mask := mask / 2;
        k := k - 1;
      }
      LowerData(x);
    }

    /** DI low between shifts; the chip does not look at it. */
    method LowerData(x: Pins)
      requires Selected() && x.em1 && x.cs && !x.sk
      modifies `pins, `chip
      ensures Selected() && chip == old(chip)
    {
      WriteReg(x.(di := false));
    }

    /** One clock of a read: the next bit appears on DO. */
    method ClockIn(x: Pins) returns (y: Pins)
      requires Selected() && x.em1 && x.cs && !x.sk && chip.phase.Sending? && chip.busy == 0
      modifies `pins, `chip
      ensures Selected() && y == pins && y.em1 && y.cs && !y.sk
      ensures chip == Send(part, old(chip), x.di) && y.d0 == Out(chip)
    {
      y := RaiseClock(x);
      y := ReadReg();
      y := y.(di := false);
      y := LowerClock(y);
    }

    /** Sixteen bits, highest first. */
    method ShiftInBits(ghost w: nat) returns (d: nat)
      requires Selected() && chip.phase == Sending(w, 0, false) && w < WORD && chip.busy == 0
      modifies `pins, `chip
      ensures Selected() && d == w && chip.phase.Sending?
      ensures chip == old(chip).(phase := chip.phase)
    {
      var x := ReadReg();
      x := x.(di := false, d0 := false);
      d := 0;
      WholeWord(w);
      var i := 0;
      while i < 16
        invariant 0 <= i <= 16 && Selected() && x.em1 && x.cs && !x.sk
        invariant chip.phase.Sending? && chip.phase.word == w && chip.phase.n == i
        invariant chip == old(chip).(phase := chip.phase)
        invariant Shifted(d, Bits(w, 16 - i)) == w
      {
        ShiftedNext(d, w, 16 - i);
        ReadBit(part, chip, w, i, x.di);
        x := ClockIn(x);
        d := 2 * d + One(x.d0);
        i := i + 1;
      }
    }

    /** Deselect and select again: this starts a complete job. */
    method StandBy()
      requires Selected() && chip.busy == 0
      modifies `pins, `chip
      ensures Selected() && chip == Deselect(old(chip)).(cs := true)
    {
      var x := ReadReg();
      x := x.(cs := false, sk := false);
      WriteReg(x);
      x := x.(cs := true);
      WriteReg(x);
    }

    /** Start the job and poll for its end. */
    method CmdDone() returns (ok: bool)
      requires Selected() && chip.busy == 0
      modifies `pins, `chip
      ensures Selected()
      ensures var d := Deselect(old(chip)).(cs := true);
              && (ok <==> d.status && d.busy < 50000)
              && (ok ==> chip == d.(busy := 0))
              && (!ok && d.status ==> chip == d.(busy := d.busy - POLLS))
    {
      StandBy();
      ghost var d := chip;
      for i := 0 to POLLS
        invariant Selected() && chip.phase == d.phase
        invariant chip == d.(busy := if d.busy >= i then d.busy - i else 0)
        invariant d.status ==> d.busy >= i
      {
        var x := ReadReg();
        if x.d0 {
          return true;
        }
      }
      return false;
    }

    /** Deselect, then one more clock. */
    method Cleanup()
      requires Selected() && chip.busy == 0
      modifies `pins, `chip
      ensures Valid() && !pins.cs && chip == Deselect(old(chip)).(cs := false, sk := false)
    {
      var x := ReadReg();
      x := x.(di := false, cs := false);
      WriteReg(x);
      x := RaiseClock(x);
      x := LowerClock(x);
    }

    function AddrSize(): nat
      reads `kind
    {
      if kind == Type93C56 then 8 else 6
    }

    /** EECS high in programming mode: the chip waits for a start bit. */
    method Select()
      requires Idle()
      modifies `pins, `chip
      ensures Selected() && Ready(part, chip) && chip == old(chip).(cs := true, sk := false)
    {
      WriteReg(Pins(true, true, false, false, false));
    }

    /** EWEN or EWDS: five bits of opcode, and the address bits left over. */
    method SetProtection(opcode: nat, reg: nat)
      requires kind != TypeNone && Selected() && Ready(part, chip)
      requires opcode == EWEN_OPCODE || opcode == EWDS_OPCODE
      modifies `pins, `chip
      ensures Selected()
      ensures chip == old(chip).(phase := Done, enabled := opcode == EWEN_OPCODE, status := false)
    {
      IssueEnable(part, chip, opcode, reg);
      ShiftOutBits(opcode, 5);
      ShiftOutBits(reg, AddrSize() - 2);
    }

    /** Opcode and address. */
    method SendInstruction(opcode: nat, reg: nat)
      requires kind != TypeNone && Selected() && chip.busy == 0
      modifies `pins, `chip
      ensures Selected() && chip == Issue(part, old(chip), opcode, reg)
    {
      ShiftOutBits(opcode, 3);
      ShiftOutBits(reg, AddrSize());
    }

    /** The chip after a job: the word is set, the job's time is used up or not. */
    ghost predicate Ran(before: Chip, job: Job, ok: bool)
      reads this
      requires job.addr < |before.mem|
    {
      && chip.mem == Apply(before.mem, job) && chip.enabled == before.enabled && chip.phase.Waiting?
      && (ok <==> Delay(before) < POLLS) && (ok ==> chip.busy == 0)
      && chip.delays == if before.delays == [] then [] else before.delays[1..]
    }

    /** Erase one word and wait for it. */
    method EraseWord(reg: nat) returns (ok: bool)
      requires kind != TypeNone && Selected() && Ready(part, chip) && chip.enabled
      modifies `pins, `chip
      ensures Selected() && Ran(old(chip), Erase(AddrOf(part, reg)), ok)
    {
      IssueErase(part, chip, reg);
      SendInstruction(ERASE_OPCODE, reg);
      ok := CmdDone();
    }

    /** Write one word and wait for it. */
    method ProgramWord(reg: nat, data: nat) returns (ok: bool)
      requires kind != TypeNone && Selected() && Ready(part, chip) && chip.enabled && data < WORD
      modifies `pins, `chip
      ensures Selected() && Ran(old(chip), Program(AddrOf(part, reg), data), ok)
    {
      IssueWrite(part, chip, reg, data);
      SendInstruction(WRITE_OPCODE, reg);
      ShiftOutBits(data, 16);
      ok := CmdDone();
    }

    /** rtl8125_eeprom_read_sc. */
    method ReadWord(reg: nat) returns (data: nat)
      requires kind != TypeNone ==> Idle() && forall i :: 0 <= i < |chip.mem| ==> chip.mem[i] < WORD
      modifies `pins, `chip
      ensures kind == TypeNone ==> data == WORD - 1 && chip == old(chip)
      ensures kind != TypeNone ==>
                && Idle() && chip == old(chip).(status := false, sk := false)
                && data == old(chip.mem)[AddrOf(part, reg)]
    {
      if kind == TypeNone {
        return WORD - 1;
      }
      Select();
      IssueRead(part, chip, reg);
      SendInstruction(READ_OPCODE, reg);
      data := ShiftInBits(chip.mem[AddrOf(part, reg)]);
      Cleanup();
      WriteReg(Pins(false, false, false, false, false));
    }

    /** rtl8125_eeprom_type: the strap tells the part, and word 0 whether it is programmed;
        `unknown` is a chip the driver has no configuration for, `twsi` an EEPROM on the other
        interface. */
    method DetectType(unknown: bool, twsi: bool, sel9356: bool) returns (len: nat)
      requires Idle() && forall i :: 0 <= i < |chip.mem| ==> chip.mem[i] < WORD
      requires sel9356 <==> !part.C46?
      modifies `kind, `pins, `chip
      ensures Idle() && |old(chip.mem)| > 0
      ensures kind == (if unknown || twsi || old(chip.mem)[0] !in {0x8129, 0x8128} then TypeNone
                       else if part.C46? then Type93C46 else Type93C56)
      ensures len == (if kind == TypeNone then 0 else if kind == Type93C46 then 128 else 256)
      ensures chip.mem == old(chip.mem) && chip.enabled == old(chip.enabled) && chip.delays == old(chip.delays)
    {
      var magic := 0;
      len := 0;
      if !unknown && !twsi {
        kind, len := if sel9356 then Type93C56 else Type93C46, if sel9356 then 256 else 128;
        magic := ReadWord(0);
      }
      if magic !in MAGICS {
        kind, len := TypeNone, 0;
      }
    }

    /** End of a write: protect the chip again and let go of it. */
    method Protect(reg: nat)
      requires kind != TypeNone && Selected() && chip.busy == 0 && chip.phase.Waiting?
      modifies `pins, `chip
      ensures Idle() && !chip.enabled && chip.mem == old(chip.mem)
    {
      StandBy();
      SetProtection(EWDS_OPCODE, reg);
      Cleanup();
      WriteReg(Pins(false, false, false, false, false));
    }

    /** rtl8125_eeprom_write_sc: the word is written and all others are kept; the chip ends
        deselected and write-protected exactly if both polls see it ready in time. */
    method WriteWord(reg: nat, data: nat)
      requires kind != TypeNone ==> Idle() && data < WORD
      modifies `pins, `chip
      ensures kind == TypeNone ==> chip == old(chip)
      ensures kind != TypeNone ==>
                && |old(chip.mem)| == |chip.mem| == Words(part)
                && chip.mem == old(chip.mem)[AddrOf(part, reg) :=
                                             if Delay(old(chip)) < POLLS then data else WORD - 1]
                && (!chip.enabled <==> Delay(old(chip)) < POLLS && Delay2(old(chip)) < POLLS)
                && (!chip.enabled ==> Idle())
                && (chip.enabled ==> chip.cs)
    {
      if kind == TypeNone {
        return;
      }
      Select();
      SetProtection(EWEN_OPCODE, reg);
      StandBy();
      var ok := EraseWord(reg);
      if !ok {
        return;
      }
      StandBy();
      ok := ProgramWord(reg, data);
      if !ok {
        return;
      }
      Protect(reg);
    }

    /** Reading back what was written. */
    method WriteThenRead(reg: nat, data: nat, other: nat) returns (back: nat, kept: nat)
      requires kind != TypeNone && Idle() && data < WORD && other < Words(part)
      requires forall i :: 0 <= i < |chip.mem| ==> chip.mem[i] < WORD
      requires Delay(chip) < POLLS && Delay2(chip) < POLLS
      modifies `pins, `chip
      ensures |old(chip.mem)| == Words(part)
      ensures back == data && (other != AddrOf(part, reg) ==> kept == old(chip.mem)[other])
      ensures Idle() && !chip.enabled
    {
      WriteWord(reg, data);
      back := ReadWord(reg);
      assert AddrOf(part, other) == other;
      kept := ReadWord(other);
    }
  }
}
