/** The Classic processor of src/proc_classic.c as a machine over values: what each operation does, what
    the arithmetic operations mean as numbers, and what every run keeps. */
module ClassicSpec {
  import opened DigitOps

  const WSIZE: nat := 14
  const EXPSIZE: nat := 3
  const SSIZE: nat := 12

  type Word = w: int | 0 <= w < 1024

  type Register = r: seq<Digit> | |r| == 14 witness seq(14, _ => 0)

  const ZERO: Register := Zeros(14)

  /** All status bits clear. */
  function NoStatus(): (r: seq<bool>)
    ensures |r| == SSIZE && forall i :: 0 <= i < SSIZE ==> !r[i]
  {
    seq(SSIZE, _ => false)
  }

  datatype Option<+T> = None | Some(value: T)

  /** The three registers and the flag that arithmetic works on. */
  datatype Accumulators = Accumulators(a: Register, b: Register, c: Register, carry: bool)

  /** Where instructions come from: the address of the next one, a one-level return address, and the
      selects that wait for one more instruction. */
  datatype Addressing = Addressing(
    pc: nat, rom: nat, group: nat, retPc: nat, delRomFlag: bool, delRom: nat, delGroupFlag: bool, delGroup: nat)

  datatype Machine = Machine(
    acc: Accumulators, d: Register, e: Register, f: Register, m: Register,
    p: nat, prevCarry: bool, s: seq<bool>, at: Addressing,
    display: bool, keyFlag: bool, keyBuf: int, ext: seq<bool>, ramAddr: nat, ram: seq<Register>)

  // ---------- arithmetic ----------

  datatype Name = A | B | C

  function Get(m: Accumulators, n: Name): Register {
    match n case A => m.a case B => m.b case C => m.c
  }

  function Put(m: Accumulators, n: Name, r: Register): Accumulators {
    match n case A => m.(a := r) case B => m.(b := r) case C => m.(c := r)
  }

  datatype ArithOp = IfZero(x: Name) | IfNonzero(x: Name)
                   | Clear(x: Name) | Copy(x: Name, y: Name) | Exchange(x: Name, y: Name)
                   | ShiftLeft(x: Name) | ShiftRight(x: Name)
                   | Add(dest: Name, augend: Name, addend: Option<Name>, one: bool)
                   | Subtract(result: Option<Name>, minuend: Option<Name>, subtrahend: Option<Name>, one: bool)

  /** The thirty-two operations, as the comments of op_arith name them. */
  function ArithOf(op: nat): ArithOp
    requires op < 32
  {
    if op < 16 then LowArith(op) else HighArith(op)
  }

  function LowArith(op: nat): ArithOp
    requires op < 16
  {
    match op
    case 0 => IfZero(B)
    case 1 => Clear(B)
    case 2 => Subtract(None, Some(A), Some(C), false)
    case 3 => IfNonzero(C)
    case 4 => Copy(C, B)
    case 5 => Subtract(Some(C), None, Some(C), false)
    case 6 => Clear(C)
    case 7 => Subtract(Some(C), None, Some(C), true)
    case 8 => ShiftLeft(A)
    case 9 => Copy(B, A)
    case 10 => Subtract(Some(C), Some(A), Some(C), false)
    case 11 => Subtract(Some(C), Some(C), None, true)
    case 12 => Copy(A, C)
    case 13 => IfZero(C)
    case 14 => Add(C, A, Some(C), false)
    case _ => Add(C, C, None, true)
  }

  function HighArith(op: nat): ArithOp
    requires 16 <= op < 32
  {
    match op - 16
    case 0 => Subtract(None, Some(A), Some(B), false)
    case 1 => Exchange(B, C)
    case 2 => ShiftRight(C)
    case 3 => IfNonzero(A)
    case 4 => ShiftRight(B)
    case 5 => Add(C, C, Some(C), false)
    case 6 => ShiftRight(A)
    case 7 => Clear(A)
    case 8 => Subtract(Some(A), Some(A), Some(B), false)
    case 9 => Exchange(A, B)
    case 10 => Subtract(Some(A), Some(A), Some(C), false)
    case 11 => Subtract(Some(A), Some(A), None, true)
    case 12 => Add(A, A, Some(B), false)
    case 13 => Exchange(A, C)
    case 14 => Add(A, A, Some(C), false)
    case _ => Add(A, A, None, true)
  }

  /** The digits a field code selects; a pointer beyond the register selects none, or all up to the top. */
  function FieldOf(code: nat, p: nat): (r: (nat, nat))
    ensures r.0 <= r.1 ==> r.1 < WSIZE
  {
    match code
    case 0 => (p, if p >= WSIZE then 0 else p)
    case 1 => (EXPSIZE, WSIZE - 2)
    case 2 => (0, EXPSIZE - 1)
    case 3 => (0, WSIZE - 1)
    case 4 => (0, if p >= WSIZE then WSIZE - 1 else p)
    case 5 => (EXPSIZE, WSIZE - 1)
    case 6 => (EXPSIZE - 1, EXPSIZE - 1)
    case _ => (WSIZE - 1, WSIZE - 1)
  }

  function Digits14(m: Accumulators, n: Name, first: nat, last: nat): (f: seq<Digit>)
    requires first <= last ==> last < WSIZE
    ensures |f| == FieldLength(first, last)
  {
    Field(Get(m, n), first, last)
  }

  function Source(m: Accumulators, n: Option<Name>, first: nat, last: nat): (f: seq<Digit>)
    requires first <= last ==> last < WSIZE
    ensures |f| == FieldLength(first, last)
  {
    if n.None? then Zeros(FieldLength(first, last)) else Digits14(m, n.value, first, last)
  }

  /** The registers with a field of one of them replaced. */
  function PutField(m: Accumulators, n: Name, first: nat, last: nat, f: seq<Digit>): Accumulators
    requires first <= last ==> last < WSIZE
    requires |f| == FieldLength(first, last)
  {
    Put(m, n, WithField(Get(m, n), first, last, f))
  }

  function Arith(m: Accumulators, op: ArithOp, first: nat, last: nat): Accumulators
    requires first <= last ==> last < WSIZE
  {
    match op
    case IfZero(x) => m.(carry := Digits14(m, x, first, last) != Zeros(FieldLength(first, last)))
    case IfNonzero(x) => m.(carry := Digits14(m, x, first, last) == Zeros(FieldLength(first, last)))
    case Clear(x) => PutField(m, x, first, last, Zeros(FieldLength(first, last)))
    case Copy(x, y) => PutField(m, x, first, last, Digits14(m, y, first, last))
    case Exchange(x, y) =>
      PutField(PutField(m, x, first, last, Digits14(m, y, first, last)), y, first, last, Digits14(m, x, first, last))
    case ShiftLeft(x) => PutField(m, x, first, last, ShiftedLeft(Digits14(m, x, first, last)))
    case ShiftRight(x) => PutField(m, x, first, last, ShiftedRight(Digits14(m, x, first, last)))
    case Add(dest, x, y, one) =>
      var (r, out) := AddDigits(Digits14(m, x, first, last), Source(m, y, first, last), one || m.carry, 10);
      PutField(m, dest, first, last, r).(carry := out)
    case Subtract(dest, x, y, one) =>
      var (r, out) := SubDigits(Source(m, x, first, last), Source(m, y, first, last), one || m.carry, 10);
      (if dest.None? then m else PutField(m, dest.value, first, last, r)).(carry := out)
  }

  // ---------- the operations ----------

  datatype Op = BadOp | Jsb | ArithField | Goto | SetS | TestS | ClrS | ClearS | DelSelRom | DelSelGrp
              | SetP | TestP | DecP | IncP | LoadConstant | DisplayToggle | CExchM | CToStack | StackToA
              | DisplayOff | MToC | DownRotate | ClearReg | DataToC | SelRom | Return | KeysToRom
              | CToAddr | CToData | RomAddrToBuf | Nop

  /** Which operation a word stands for, by its bit pattern. */
  function Decode(o: Word): Op {
    match o % 4
    case 1 => Jsb
    case 2 => ArithField
    case 3 => Goto
    case _ => DecodeSpecial(o / 64, o % 64)
  }

  function DecodeSpecial(hi: nat, lo: nat): Op {
    if lo == 0x04 then SetS
    else if lo == 0x14 then TestS
    else if lo == 0x24 then ClrS
    else if lo == 0x34 then
      (if hi == 0 then ClearS else if hi % 2 == 1 then DelSelRom else if hi == 8 || hi == 10 then DelSelGrp else BadOp)
    else if lo == 0x0c then SetP
    else if lo == 0x2c then TestP
    else if lo == 0x1c && hi == 0 then DecP
    else if lo == 0x3c && hi == 0 then IncP
    else if lo == 0x18 && hi <= 9 then LoadConstant
    else if (lo == 0x28 || lo == 0x38) && hi % 4 == 3 then DataToC
    else if lo == 0x28 && hi % 2 == 0 then DecodeRegister(hi)
    else if lo == 0x10 && hi % 2 == 0 then SelRom
    else if lo == 0x10 && hi == 3 then KeysToRom
    else if lo == 0x30 && hi == 0 then Return
    else if lo == 0x30 && hi == 9 then CToAddr
    else if lo == 0x30 && hi == 11 then CToData
    else if lo == 0x00 && hi == 8 then RomAddrToBuf
    else if lo == 0x00 && hi == 0 then Nop
    else BadOp
  }

  function DecodeRegister(hi: nat): Op {
    match hi
    case 0 => DisplayToggle
    case 2 => CExchM
    case 4 => CToStack
    case 6 => StackToA
    case 8 => DisplayOff
    case 10 => MToC
    case 12 => DownRotate
    case 14 => ClearReg
    case _ => BadOp
  }

  /** RAM selection. The two-digit form belongs to one calculator, chosen by an architecture flag. */
  function RamAddress(c: Register, twoDigit: bool): nat {
    var high: int, low: int := c[12], c[11];
    if twoDigit && c[0] != 0 then high * 16 + low else high
  }

  function Apply(m: Machine, op: Op, o: Word, twoDigit: bool): (t: Machine)
    requires |m.s| == SSIZE
    ensures |t.s| == SSIZE
  {
    if Transfers(op) then Transfer(m, op, o, twoDigit) else Control(m, op, o)
  }

  /** The operations that move or compute registers; the others work on status bits, pointer, addresses,
      tests and the display. */
  predicate Transfers(op: Op) {
    || op == ArithField || op == LoadConstant || op == CExchM || op == MToC || op == CToStack || op == StackToA
    || op == DownRotate || op == ClearReg || op == CToAddr || op == CToData || op == DataToC
  }

  predicate Branches(op: Op) {
    op == Jsb || op == Goto || op == Return || op == DelSelRom || op == DelSelGrp || op == SelRom || op == KeysToRom
  }

  /** Branches and selects: where the next instruction comes from. */
  function Branch(at: Addressing, op: Op, o: Word, prevCarry: bool, keyBuf: int): Addressing {
    match op
    case Jsb => at.(retPc := at.pc, pc := o / 4)
    case Goto => if prevCarry then at else at.(pc := o / 4)
    case Return => at.(pc := at.retPc)
    case DelSelRom => at.(delRom := o / 128, delRomFlag := true)
    case DelSelGrp => at.(delGroup := o / 128 % 2, delGroupFlag := true)
    case SelRom => at.(rom := o / 128)
    case KeysToRom => at.(pc := if keyBuf < 0 then 0 else keyBuf % 256)
    case _ => at
  }

  /** The status bits after setting or clearing bit n, or clearing all; a bit that does not exist is not written. */
  function StatusBits(s: seq<bool>, op: Op, n: nat): (r: seq<bool>)
    requires |s| == SSIZE
    ensures |r| == SSIZE
  {
    if op == ClearS then NoStatus() else if n >= SSIZE then s else s[n := op == SetS]
  }

  /** What status, pointer and display operations work on, together with the flag the tests set. */
  datatype Panel = Panel(p: nat, carry: bool, s: seq<bool>, display: bool)

  function PanelOp(v: Panel, op: Op, n: nat): (r: Panel)
    requires |v.s| == SSIZE
    ensures |r.s| == SSIZE
  {
    match op
    case SetS => v.(s := StatusBits(v.s, op, n))
    case ClrS => v.(s := StatusBits(v.s, op, n))
    case ClearS => v.(s := StatusBits(v.s, op, n))
    case TestS => if n >= SSIZE then v else v.(carry := v.s[n])
    case SetP => v.(p := n)
    case TestP => v.(carry := v.p == n)
    case DecP => v.(p := (v.p + 15) % 16)
    case IncP => v.(p := (v.p + 1) % 16)
    case DisplayToggle => v.(display := !v.display)
    case DisplayOff => v.(display := false)
    case _ => v
  }

  function Control(m: Machine, op: Op, o: Word): (t: Machine)
    requires |m.s| == SSIZE
    ensures |t.s| == SSIZE
  {
    if Branches(op) then m.(at := Branch(m.at, op, o, m.prevCarry, m.keyBuf))
    else
      var v := PanelOp(Panel(m.p, m.acc.carry, m.s, m.display), op, o / 64);
      m.(acc := m.acc.(carry := v.carry), p := v.p, s := v.s, display := v.display)
  }

  function ArithWord(m: Accumulators, o: Word, p: nat): Accumulators {
    var (first, last) := FieldOf(o / 4 % 8, p);
    Arith(m, ArithOf(o / 32), first, last)
  }

  function Transfer(m: Machine, op: Op, o: Word, twoDigit: bool): (t: Machine)
    ensures t.s == m.s && t.at == m.at
  {
    match op
    case ArithField => m.(acc := ArithWord(m.acc, o, m.p))
    case LoadConstant => m.(acc := LoadDigit(m.acc, m.p, o / 64), p := (m.p + 15) % 16)
    case CExchM => m.(acc := m.acc.(c := m.m), m := m.acc.c)
    case MToC => m.(acc := m.acc.(c := m.m))
    case CToStack => m.(d := m.acc.c, e := m.d, f := m.e)
    case StackToA => m.(acc := m.acc.(a := m.d), d := m.e, e := m.f)
    case DownRotate => m.(acc := m.acc.(c := m.d), d := m.e, e := m.f, f := m.acc.c)
    case ClearReg => m.(acc := m.acc.(a := ZERO, b := ZERO, c := ZERO), d := ZERO, e := ZERO, f := ZERO, m := ZERO)
    case CToAddr => m.(ramAddr := RamAddress(m.acc.c, twoDigit))
    case CToData => if m.ramAddr >= |m.ram| then m else m.(ram := m.ram[m.ramAddr := m.acc.c])
    case DataToC => m.(acc := m.acc.(c := if m.ramAddr >= |m.ram| then ZERO else m.ram[m.ramAddr]))
    case _ => m
  }

  /** A digit above nine, or a pointer beyond the register, loads nothing. */
  function LoadDigit(m: Accumulators, p: nat, n: nat): Accumulators {
    if p >= WSIZE || n > 9 then m else m.(c := m.c[p := n])
  }

  /** The address an instruction is fetched from. */
  function FetchAddress(at: Addressing): nat {
    at.group * 2048 + at.rom * 256 + at.pc
  }

  /** Held keys and external flags set status bits before every instruction. */
  function Polled(s: seq<bool>, keyFlag: bool, ext: seq<bool>): (r: seq<bool>)
    requires |s| == SSIZE && |ext| == 2
    ensures |r| == SSIZE
  {
    var s0 := if keyFlag then s[0 := true] else s;
    var s1 := if ext[0] then s0[3 := true] else s0;
    if ext[1] then s1[11 := true] else s1
  }

  /** classic_execute_instruction up to the operation. */
  function Prepared(m: Machine): Machine
    requires |m.s| == SSIZE && |m.ext| == 2
  {
    m.(prevCarry := m.acc.carry, acc := m.acc.(carry := false), s := Polled(m.s, m.keyFlag, m.ext),
       at := m.at.(delGroupFlag := false, delRomFlag := false, pc := (m.at.pc + 1) % 256))
  }

  /** A select that an earlier instruction delayed takes effect over whatever this one did. */
  function Selected(before: Addressing, after: Addressing): Addressing {
    after.(group := if before.delGroupFlag then before.delGroup else after.group,
           rom := if before.delRomFlag then before.delRom else after.rom)
  }

  /** One instruction. */
  function Step(m: Machine, o: Word, twoDigit: bool): Machine
    requires |m.s| == SSIZE && |m.ext| == 2
  {
    var t := Apply(Prepared(m), Decode(o), o, twoDigit);
    t.(at := Selected(m.at, t.at))
  }

  function ResetMachine(m: Machine): Machine {
    m.(at := m.at.(pc := 0, rom := 0, group := 0, delRomFlag := false, delRom := 0, delGroupFlag := false,
        delGroup := 0),
       acc := m.acc.(a := ZERO, b := ZERO, c := ZERO), d := ZERO, e := ZERO, f := ZERO, m := ZERO,
       s := NoStatus(), p := 0, display := false, keyFlag := false)
  }

  /** The machine after power on: everything zeroed, with `size` RAM registers. */
  function PowerOn(size: nat): Machine {
    Machine(Accumulators(ZERO, ZERO, ZERO, false), ZERO, ZERO, ZERO, ZERO, 0, false, NoStatus(),
            Addressing(0, 0, 0, 0, false, 0, false, 0), false, false, 0, [false, false], 0, seq(size, _ => ZERO))
  }

  datatype Event = Instruction | Key(code: int, down: bool) | ExternalFlag(number: nat, on: bool) | Reset | ClearMemory

  predicate Sensible(e: Event) {
    e.ExternalFlag? ==> e.number < 2
  }

  function React(m: Machine, e: Event, ucode: seq<Word>, twoDigit: bool): Machine
    requires |m.s| == SSIZE && |m.ext| == 2 && FetchAddress(m.at) < |ucode| && Sensible(e)
  {
    match e
    case Instruction => Step(m, ucode[FetchAddress(m.at)], twoDigit)
    case Key(code, down) => if down then m.(keyBuf := code, keyFlag := true) else m.(keyFlag := false)
    case ExternalFlag(number, on) => m.(ext := m.ext[number := on])
    case Reset => ResetMachine(m)
    case ClearMemory => m.(ram := seq(|m.ram|, _ => ZERO))
  }

  // ---------- what every run keeps ----------

  ghost predicate Decimal(r: Register) {
    DigitsBelow(r, 10)
  }

  ghost predicate DecimalAcc(m: Accumulators) {
    Decimal(m.a) && Decimal(m.b) && Decimal(m.c)
  }

  ghost predicate DecimalRegisters(m: Machine) {
    DecimalAcc(m.acc) && Decimal(m.d) && Decimal(m.e) && Decimal(m.f) && Decimal(m.m)
  }

  ghost predicate DecimalRam(m: Machine) {
    forall i :: 0 <= i < |m.ram| ==> Decimal(m.ram[i])
  }

  /** Every part of an address has its own width. */
  predicate AddressInRange(at: Addressing) {
    at.pc < 256 && at.retPc < 256 && at.rom < 8 && at.delRom < 8 && at.group < 2 && at.delGroup < 2
  }

  /** The pointer has four bits, and there are twelve status and two external flags. */
  predicate InRange(m: Machine) {
    m.p < 16 && AddressInRange(m.at) && |m.s| == SSIZE && |m.ext| == 2
  }

  ghost predicate Inv(m: Machine) {
    DecimalRegisters(m) && DecimalRam(m) && InRange(m)
  }

  lemma FetchBelow4096(at: Addressing)
    requires AddressInRange(at)
    ensures FetchAddress(at) < 4096
  {
  }

  lemma FieldDecimal(s: Register, first: nat, last: nat)
    requires Decimal(s) && (first <= last ==> last < WSIZE)
    ensures DigitsBelow(Field(s, first, last), 10)
  {
  }

  lemma WithFieldDecimal(s: Register, first: nat, last: nat, f: seq<Digit>)
    requires Decimal(s) && (first <= last ==> last < WSIZE) && |f| == FieldLength(first, last) && DigitsBelow(f, 10)
    ensures Decimal(WithField(s, first, last, f))
  {
    var r := WithField(s, first, last, f);
    forall i | 0 <= i < |r|
      ensures r[i] < 10
    {
      if first <= i <= last {
        assert r[i] == f[i - first];
      }
    }
  }

  lemma PutFieldDecimal(m: Accumulators, n: Name, first: nat, last: nat, f: seq<Digit>)
    requires DecimalAcc(m) && (first <= last ==> last < WSIZE) && |f| == FieldLength(first, last) && DigitsBelow(f, 10)
    ensures DecimalAcc(PutField(m, n, first, last, f))
  {
    WithFieldDecimal(Get(m, n), first, last, f);
    hide WithField, Decimal;
  }

  lemma SourceDecimal(m: Accumulators, n: Option<Name>, first: nat, last: nat)
    requires DecimalAcc(m) && (first <= last ==> last < WSIZE)
    ensures DigitsBelow(Source(m, n, first, last), 10)
  {
    if n.Some? {
      FieldDecimal(Get(m, n.value), first, last);
    }
  }

  lemma ShiftsDecimal(f: seq<Digit>)
    requires DigitsBelow(f, 10)
    ensures DigitsBelow(ShiftedLeft(f), 10) && DigitsBelow(ShiftedRight(f), 10)
  {
  }

  lemma ArithDecimal(m: Accumulators, op: ArithOp, first: nat, last: nat)
    requires DecimalAcc(m) && (first <= last ==> last < WSIZE)
    ensures DecimalAcc(Arith(m, op, first, last))
  {
    hide PutField, Decimal, AddDigits, SubDigits, Field, Zeros;
    match op
    case IfZero(x) =>
    case IfNonzero(x) =>
    case Clear(x) =>
      SourceDecimal(m, None, first, last);
      PutFieldDecimal(m, x, first, last, Zeros(FieldLength(first, last)));
    case Copy(x, y) =>
      SourceDecimal(m, Some(y), first, last);
      PutFieldDecimal(m, x, first, last, Digits14(m, y, first, last));
    case Exchange(x, y) =>
      SourceDecimal(m, Some(x), first, last);
      SourceDecimal(m, Some(y), first, last);
      PutFieldDecimal(m, x, first, last, Digits14(m, y, first, last));
      PutFieldDecimal(PutField(m, x, first, last, Digits14(m, y, first, last)), y, first, last,
          Digits14(m, x, first, last));
    case ShiftLeft(x) =>
      SourceDecimal(m, Some(x), first, last);
      ShiftsDecimal(Digits14(m, x, first, last));
      PutFieldDecimal(m, x, first, last, ShiftedLeft(Digits14(m, x, first, last)));
    case ShiftRight(x) =>
      SourceDecimal(m, Some(x), first, last);
      ShiftsDecimal(Digits14(m, x, first, last));
      PutFieldDecimal(m, x, first, last, ShiftedRight(Digits14(m, x, first, last)));
    case Add(dest, x, y, one) =>
      SourceDecimal(m, Some(x), first, last);
      SourceDecimal(m, y, first, last);
      AddDigitsValue(Digits14(m, x, first, last), Source(m, y, first, last), one || m.carry, 10);
      PutFieldDecimal(m, dest, first, last,
                      AddDigits(Digits14(m, x, first, last), Source(m, y, first, last), one || m.carry, 10).0);
    case Subtract(dest, x, y, one) =>
      SourceDecimal(m, x, first, last);
      SourceDecimal(m, y, first, last);
      SubDigitsValue(Source(m, x, first, last), Source(m, y, first, last), one || m.carry, 10);
      if dest.Some? {
        PutFieldDecimal(m, dest.value, first, last,
                        SubDigits(Source(m, x, first, last), Source(m, y, first, last), one || m.carry, 10).0);
      }
  }

  lemma ZeroDecimal()
    ensures Decimal(ZERO)
  {
  }

  /** The other operations change no register. */
  lemma ControlFrame(m: Machine, op: Op, o: Word)
    requires |m.s| == SSIZE
    ensures var t := Control(m, op, o);
            && t == m.(acc := m.acc.(carry := t.acc.carry), p := t.p, s := t.s, at := t.at, display := t.display)
            && (op != TestS && op != TestP ==> t.acc == m.acc)
  {
    hide Branch, StatusBits;
    if Branches(op) {
      hide PanelOp;
    }
  }

  lemma ControlKeepsRange(m: Machine, op: Op, o: Word)
    requires InRange(m)
    ensures InRange(Control(m, op, o))
  {
    hide StatusBits;
    if Branches(op) {
      BranchKeepsRange(m.at, op, o, m.prevCarry, m.keyBuf);
    }
    hide Branch;
  }

  lemma BranchKeepsRange(at: Addressing, op: Op, o: Word, prevCarry: bool, keyBuf: int)
    requires AddressInRange(at)
    ensures AddressInRange(Branch(at, op, o, prevCarry, keyBuf))
  {
  }

  /** The operations that touch registers keep them decimal. */
  lemma TransferKeepsDecimal(m: Machine, op: Op, o: Word, twoDigit: bool)
    requires DecimalRegisters(m) && DecimalRam(m)
    ensures DecimalRegisters(Transfer(m, op, o, twoDigit))
  {
    hide Decimal, Arith, ArithOf, FieldOf, LoadDigit, RamAddress;
    if op == ArithField {
      var (first, last) := FieldOf(o / 4 % 8, m.p);
      ArithDecimal(m.acc, ArithOf(o / 32), first, last);
    } else if op == LoadConstant {
      LoadKeepsDecimal(m.acc, m.p, o / 64);
    } else {
      ZeroDecimal();
    }
  }

  lemma TransferKeepsRam(m: Machine, op: Op, o: Word, twoDigit: bool)
    requires DecimalRegisters(m) && DecimalRam(m) && m.p < 16
    ensures var t := Transfer(m, op, o, twoDigit); DecimalRam(t) && t.p < 16 && t.ext == m.ext
  {
    hide Decimal, Arith, ArithOf, FieldOf, LoadDigit, RamAddress;
  }

  lemma ApplyKeepsInv(m: Machine, op: Op, o: Word, twoDigit: bool)
    requires Inv(m)
    ensures Inv(Apply(m, op, o, twoDigit))
  {
    if !Transfers(op) {
      ControlFrame(m, op, o);
      ControlKeepsRange(m, op, o);
      hide Decimal, Control;
    } else {
      TransferKeepsDecimal(m, op, o, twoDigit);
      TransferKeepsRam(m, op, o, twoDigit);
      hide Decimal, Transfer;
    }
  }

  lemma LoadKeepsDecimal(m: Accumulators, p: nat, n: nat)
    requires DecimalAcc(m)
    ensures DecimalAcc(LoadDigit(m, p, n))
  {
  }

  lemma StepKeepsInv(m: Machine, o: Word, twoDigit: bool)
    requires Inv(m)
    ensures Inv(Step(m, o, twoDigit))
  {
    hide Apply, Decode, Decimal, Polled;
    ApplyKeepsInv(Prepared(m), Decode(o), o, twoDigit);
  }

  lemma EventKeepsInv(m: Machine, e: Event, ucode: seq<Word>, twoDigit: bool)
    requires Inv(m) && |ucode| == 4096 && Sensible(e)
    ensures FetchAddress(m.at) < 4096 && Inv(React(m, e, ucode, twoDigit))
  {
    FetchBelow4096(m.at);
    ZeroDecimal();
    if e == Instruction {
      StepKeepsInv(m, ucode[FetchAddress(m.at)], twoDigit);
    }
    hide Step, Decimal, FetchAddress;
  }

  /** The states of a run, as long as its instructions are fetched from the words of ROM. */
  function Run(m: Machine, events: seq<Event>, ucode: seq<Word>, twoDigit: bool): Option<Machine>
    decreases |events|
  {
    if events == [] then Some(m)
    else if !InRange(m) || FetchAddress(m.at) >= |ucode| || !Sensible(events[0]) then None
    else Run(React(m, events[0], ucode, twoDigit), events[1..], ucode, twoDigit)
  }

  lemma {:induction false} RunKeepsInv(m: Machine, events: seq<Event>, ucode: seq<Word>, twoDigit: bool)
    requires Inv(m) && |ucode| == 4096 && forall e :: e in events ==> Sensible(e)
    ensures Run(m, events, ucode, twoDigit).Some? && Inv(Run(m, events, ucode, twoDigit).value)
    decreases |events|
  {
    if events != [] {
      assert events[0] in events;
      EventKeepsInv(m, events[0], ucode, twoDigit);
      hide React;
      RunKeepsInv(React(m, events[0], ucode, twoDigit), events[1..], ucode, twoDigit);
    }
  }

  /** However many instructions, key strokes, flag changes, resets and memory clearings follow power on,
      every digit of every register and of RAM is decimal, the pointer has four bits, and the next
      instruction is fetched below 4096. */
  lemma EveryRun(size: nat, events: seq<Event>, ucode: seq<Word>, twoDigit: bool)
    requires |ucode| == 4096 && forall e :: e in events ==> Sensible(e)
    ensures var t := Run(PowerOn(size), events, ucode, twoDigit);
            t.Some? && Inv(t.value) && FetchAddress(t.value.at) < 4096
  {
    ZeroDecimal();
    hide Decimal;
    RunKeepsInv(PowerOn(size), events, ucode, twoDigit);
    FetchBelow4096(Run(PowerOn(size), events, ucode, twoDigit).value.at);
  }

  // ---------- across instructions ----------

  /** A delayed ROM select is felt one instruction later: the next instruction is still fetched from the
      old ROM, the one after it from the new one, whatever the instruction between them selects. */
  lemma DelayedSelectLands(m: Machine, o1: Word, o2: Word, twoDigit: bool)
    requires Inv(m) && Decode(o1) == DelSelRom
    ensures !m.at.delRomFlag ==> Step(m, o1, twoDigit).at.rom == m.at.rom
    ensures Inv(Step(m, o1, twoDigit)) && Step(Step(m, o1, twoDigit), o2, twoDigit).at.rom == o1 / 128
  {
    StepKeepsInv(m, o1, twoDigit);
    hide Decode, Decimal, Polled;
  }

  /** A carry lives for one instruction: only a test or an arithmetic operation immediately before a
      conditional branch can keep it from being taken. */
  lemma OnlyTestsBlockABranch(m: Machine, o1: Word, o2: Word, twoDigit: bool)
    requires Inv(m) && Decode(o2) == Goto
    requires Decode(o1) != ArithField && Decode(o1) != TestS && Decode(o1) != TestP
    ensures Inv(Step(m, o1, twoDigit)) && Step(Step(m, o1, twoDigit), o2, twoDigit).at.pc == o2 / 4
  {
    StepKeepsInv(m, o1, twoDigit);
    CarryStaysClear(Prepared(m), Decode(o1), o1, twoDigit);
    hide Decode, Decimal, Polled;
  }

  lemma CarryStaysClear(m: Machine, op: Op, o: Word, twoDigit: bool)
    requires |m.s| == SSIZE && !m.acc.carry && op != ArithField && op != TestS && op != TestP
    ensures !Apply(m, op, o, twoDigit).acc.carry
  {
    if Transfers(op) {
      hide RamAddress, Control;
    } else {
      ControlFrame(m, op, o);
      hide Control, Transfer;
    }
  }

  /** Popping undoes pushing but for the register at the top of the stack, which is lost. */
  lemma PopUndoesPush(m: Machine, o: Word, twoDigit: bool)
    requires |m.s| == SSIZE
    ensures Apply(Apply(m, CToStack, o, twoDigit), StackToA, o, twoDigit) == m.(acc := m.acc.(a := m.acc.c), f := m.e)
  {
    hide RamAddress, Arith, ArithOf, FieldOf, LoadDigit;
  }

  /** Rotating the stack four times, and exchanging with memory twice, change nothing. */
  lemma RotationsReturn(m: Machine, o: Word, twoDigit: bool)
    requires |m.s| == SSIZE
    ensures var t := Apply(m, DownRotate, o, twoDigit);
            var u := Apply(t, DownRotate, o, twoDigit);
            var v := Apply(u, DownRotate, o, twoDigit);
            Apply(v, DownRotate, o, twoDigit) == m
    ensures var t := Apply(m, CExchM, o, twoDigit);
            Apply(t, CExchM, o, twoDigit) == m
  {
    var t := Apply(m, DownRotate, o, twoDigit);
    assert t == m.(acc := m.acc.(c := m.d), d := m.e, e := m.f, f := m.acc.c);
    var u := Apply(t, DownRotate, o, twoDigit);
    assert u == m.(acc := m.acc.(c := m.e), d := m.f, e := m.acc.c, f := m.d);
    hide RamAddress, Arith, ArithOf, FieldOf, LoadDigit;
  }

  /** What is stored in RAM comes back, wherever the address points inside it. */
  lemma RecallStored(m: Machine, o: Word, twoDigit: bool)
    requires |m.s| == SSIZE && m.ramAddr < |m.ram|
    ensures var t := Apply(m, CToData, o, twoDigit);
            Apply(t, DataToC, o, twoDigit) == t
  {
    hide RamAddress, Arith, ArithOf, FieldOf, LoadDigit;
  }

  // ---------- what the arithmetic means ----------

  /** The number in a field of a register. */
  function Num(m: Accumulators, n: Name, first: nat, last: nat): nat
    requires first <= last ==> last < WSIZE
  {
    Value(Digits14(m, n, first, last), 10)
  }

  function OperandValue(m: Accumulators, n: Option<Name>, first: nat, last: nat): nat
    requires first <= last ==> last < WSIZE
  {
    if n.None? then 0 else Num(m, n.value, first, last)
  }

  lemma {:induction false} ZerosValue(n: nat)
    ensures Value(Zeros(n), 10) == 0
  {
    if n > 0 {
      assert Zeros(n)[1..] == Zeros(n - 1);
      ZerosValue(n - 1);
    }
  }

  lemma SourceValue(m: Accumulators, n: Option<Name>, first: nat, last: nat)
    requires first <= last ==> last < WSIZE
    ensures Value(Source(m, n, first, last), 10) == OperandValue(m, n, first, last)
  {
    if n.None? {
      ZerosValue(FieldLength(first, last));
    }
  }

  lemma PutFieldValue(m: Accumulators, n: Name, first: nat, last: nat, f: seq<Digit>)
    requires (first <= last ==> last < WSIZE) && |f| == FieldLength(first, last)
    ensures Num(PutField(m, n, first, last, f), n, first, last) == Value(f, 10)
  {
    hide Value;
  }

  lemma {:induction false} OnlyZerosAreZero(f: seq<Digit>)
    ensures Value(f, 10) == 0 <==> f == Zeros(|f|)
  {
    if |f| > 0 {
      OnlyZerosAreZero(f[1..]);
      assert Zeros(|f|) == [0] + Zeros(|f| - 1);
      assert f == [f[0]] + f[1..];
    }
  }

  /** What each operation of op_arith does to the numbers in the field, entered with the carry clear, as
      every instruction enters it: sums and differences modulo the field's capacity with the carry or
      borrow telling the overflow, shifts multiplying and dividing by ten, tests and comparisons
      setting the carry exactly when they fail. */
  lemma ArithMeaning(m: Accumulators, op: ArithOp, first: nat, last: nat)
    requires DecimalAcc(m) && !m.carry && (first <= last ==> last < WSIZE)
    ensures var t, capacity := Arith(m, op, first, last), Pow(10, FieldLength(first, last));
            match op
            case IfZero(x) => t.carry <==> Num(m, x, first, last) != 0
            case IfNonzero(x) => t.carry <==> Num(m, x, first, last) == 0
            case Clear(x) => Num(t, x, first, last) == 0 && !t.carry
            case Copy(x, y) => Num(t, x, first, last) == Num(m, y, first, last) && !t.carry
            case Exchange(x, y) => Num(t, y, first, last) == Num(m, x, first, last) && !t.carry
                                   && (x != y ==> Num(t, x, first, last) == Num(m, y, first, last))
            case ShiftLeft(x) => Num(t, x, first, last) == Num(m, x, first, last) * 10 % capacity && !t.carry
            case ShiftRight(x) => Num(t, x, first, last) == Num(m, x, first, last) / 10 && !t.carry
            case Add(dest, x, y, one) =>
              Num(t, dest, first, last) + (if t.carry then capacity else 0)
              == Num(m, x, first, last) + OperandValue(m, y, first, last) + Bit(one)
            case Subtract(dest, x, y, one) =>
              var difference := OperandValue(m, x, first, last) - OperandValue(m, y, first, last) - Bit(one);
              && (t.carry <==> difference < 0)
              && (dest.Some? ==> Num(t, dest.value, first, last) == difference + if t.carry then capacity else 0)
  {
    hide WithField, Value, Pow, AddDigits, SubDigits, Digits14, Source, Zeros;
    match op
    case IfZero(x) => OnlyZerosAreZero(Digits14(m, x, first, last));
    case IfNonzero(x) => OnlyZerosAreZero(Digits14(m, x, first, last));
    case Clear(x) =>
      ZerosValue(FieldLength(first, last));
      PutFieldValue(m, x, first, last, Zeros(FieldLength(first, last)));
    case Copy(x, y) =>
      PutFieldValue(m, x, first, last, Digits14(m, y, first, last));
    case Exchange(x, y) => ExchangeMeaning(m, x, y, first, last);
    case ShiftLeft(x) => ShiftMeaning(m, x, first, last);
    case ShiftRight(x) => ShiftMeaning(m, x, first, last);
    case Add(dest, x, y, one) => AddMeaning(m, dest, x, y, one, first, last);
    case Subtract(dest, x, y, one) => SubtractMeaning(m, dest, x, y, one, first, last);
  }

  lemma ExchangeMeaning(m: Accumulators, x: Name, y: Name, first: nat, last: nat)
    requires first <= last ==> last < WSIZE
    ensures var t := Arith(m, Exchange(x, y), first, last);
            && Num(t, y, first, last) == Num(m, x, first, last) && t.carry == m.carry
            && (x != y ==> Num(t, x, first, last) == Num(m, y, first, last))
  {
    hide Value;
    var u := PutField(m, x, first, last, Digits14(m, y, first, last));
    PutFieldValue(m, x, first, last, Digits14(m, y, first, last));
    PutFieldValue(u, y, first, last, Digits14(m, x, first, last));
    hide WithField, Field;
    if x != y {
      assert Get(Arith(m, Exchange(x, y), first, last), x) == Get(u, x);
    }
  }

  lemma ShiftValues(f: seq<Digit>)
    requires DigitsBelow(f, 10)
    ensures Value(ShiftedRight(f), 10) == Value(f, 10) / 10
    ensures Value(ShiftedLeft(f), 10) == Value(f, 10) * 10 % Pow(10, |f|)
  {
    if |f| > 0 {
      ShiftRightValue(f, 10);
      ShiftLeftValue(f, 10);
    } else {
      assert f == [] && Pow(10, 0) == 1 && Value(f, 10) == 0;
    }
  }

  lemma ShiftMeaning(m: Accumulators, x: Name, first: nat, last: nat)
    requires DecimalAcc(m) && (first <= last ==> last < WSIZE)
    ensures Num(Arith(m, ShiftRight(x), first, last), x, first, last) == Num(m, x, first, last) / 10
    ensures Num(Arith(m, ShiftLeft(x), first, last), x, first, last)
            == Num(m, x, first, last) * 10 % Pow(10, FieldLength(first, last))
  {
    var f := Digits14(m, x, first, last);
    assert Arith(m, ShiftRight(x), first, last) == PutField(m, x, first, last, ShiftedRight(f));
    assert Arith(m, ShiftLeft(x), first, last) == PutField(m, x, first, last, ShiftedLeft(f));
    assert Num(m, x, first, last) == Value(f, 10);
    assert DigitsBelow(f, 10) by {
      SourceDecimal(m, Some(x), first, last);
    }
    hide *;
    ShiftValues(f);
    PutFieldValue(m, x, first, last, ShiftedRight(f));
    PutFieldValue(m, x, first, last, ShiftedLeft(f));
  }

  lemma AddMeaning(m: Accumulators, dest: Name, x: Name, y: Option<Name>, one: bool, first: nat, last: nat)
    requires DecimalAcc(m) && !m.carry && (first <= last ==> last < WSIZE)
    ensures var t := Arith(m, Add(dest, x, y, one), first, last);
            Num(t, dest, first, last) + (if t.carry then Pow(10, FieldLength(first, last)) else 0)
            == Num(m, x, first, last) + OperandValue(m, y, first, last) + Bit(one)
  {
    var xs, ys := Digits14(m, x, first, last), Source(m, y, first, last);
    SourceDecimal(m, Some(x), first, last);
    SourceDecimal(m, y, first, last);
    SourceValue(m, y, first, last);
    AddDigitsValue(xs, ys, one, 10);
    PutFieldValue(m, dest, first, last, AddDigits(xs, ys, one, 10).0);
    hide Value, Pow, AddDigits, PutField, Digits14, Source, DigitsBelow;
  }

  lemma SubtractMeaning(m: Accumulators, dest: Option<Name>, x: Option<Name>, y: Option<Name>, one: bool, first: nat,
                        last: nat)
    requires DecimalAcc(m) && !m.carry && (first <= last ==> last < WSIZE)
    ensures var t := Arith(m, Subtract(dest, x, y, one), first, last);
            var difference := OperandValue(m, x, first, last) - OperandValue(m, y, first, last) - Bit(one);
            && (t.carry <==> difference < 0)
            && (dest.Some? ==> Num(t, dest.value, first, last)
                               == difference + if t.carry then Pow(10, FieldLength(first, last)) else 0)
  {
    var xs, ys := Source(m, x, first, last), Source(m, y, first, last);
    SourceDecimal(m, x, first, last);
    SourceDecimal(m, y, first, last);
    SourceValue(m, x, first, last);
    SourceValue(m, y, first, last);
    SubDigitsValue(xs, ys, one, 10);
    if dest.Some? {
      PutFieldValue(m, dest.value, first, last, SubDigits(xs, ys, one, 10).0);
    }
    hide Value, Pow, SubDigits, PutField, Source, DigitsBelow, OperandValue;
  }
}
