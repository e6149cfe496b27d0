/** The control side of the Woodstock processor of src/proc_woodstock.c over values: program counter,
    carry, return stack, delayed ROM select, bank, status bits, pointer and self-test. What the digit data
    path computes enters each cycle as an arbitrary input. */
module WoodstockSpec {
  import opened ReturnStacks
  import opened WoodstockCrc

  /** A ROM word of ten bits. */
  datatype Word = Word(bits: Bits)

  function Number(w: Word): (n: nat)
    ensures n < 1024
  {
    w.bits as nat
  }

  /** Two banks of 4096 words, and for each of the four pages the banks it has. */
  datatype Rom = Rom(words: seq<seq<Word>>, banks: seq<set<nat>>)

  predicate ValidRom(rom: Rom) {
    |rom.words| == 2 && |rom.words[0]| == 4096 && |rom.words[1]| == 4096 && |rom.banks| == 4
  }

  datatype InstState = Normal | ThenGoto | Selftest

  /** What decides where the next word comes from. */
  datatype Control = Control(pc: nat, inst: InstState, delRomFlag: bool, delRom: nat, calls: Circular, bank: nat)

  /** Carry, pointer and status bits. pChange lists the changes of the pointer in this and the two cycles before. */
  datatype Flags = Flags(carry: bool, prevCarry: bool, p: nat, pChange: seq<int>, s: seq<bool>)

  datatype Act = Act(ctl: Control, fl: Flags, crc: Bits, prevPc: nat)

  /** What reaches the control side in a cycle: the carry out of the digit operation, digits 2 and 1 of
      register a, the key held and its code, and the two external flag lines, plain and gated by status 0. */
  datatype Inputs = Inputs(carryOut: bool, digits: nat, key: bool, keyCode: int, f1: bool, f1IfS0: bool, f2: bool,
      f2IfS0: bool)

  /** Fixed properties of a calculator. */
  datatype Model = Model(spice: bool, bankFromS0: bool)

  ghost predicate ControlInRange(c: Control) {
    && c.pc < 4096 && c.delRom < 16 && Proper(c.calls) && c.bank < 2
    && (forall i :: 0 <= i < 2 ==> c.calls.slots[i] < 4096)
    && (c.inst != Normal ==> !c.delRomFlag)
  }

  ghost predicate FlagsInRange(f: Flags) {
    |f.pChange| == 3 && |f.s| == 16 && f.p < 16
  }

  /** Addresses have twelve bits, and a delayed select is never pending in the middle of an instruction. */
  ghost predicate Inv(m: Act) {
    ControlInRange(m.ctl) && FlagsInRange(m.fl)
  }

  predicate ValidInputs(x: Inputs) {
    x.digits < 256 && x.keyCode < 256
  }

  // ---------- operations ----------

  /** The operations the control side distinguishes; Data stands for all those that only move digits. */
  datatype Op = Jsb | Goto | ArithField | SetS | ClrS | ClearS | TestS1 | TestS0 | TestPEq | TestPNe
              | SelRom | DelSelRom | SetP | IncP | DecP | LoadConstant | ReturnOp | KeysToRom | AToRom
              | BankSwitch | RomSelftest | Data | Nop | BadOp

  /** Which operation a word stands for, by its bit pattern. */
  function Decode(o: nat): Op {
    match o % 4
    case 1 => Jsb
    case 2 => ArithField
    case 3 => Goto
    case _ => DecodeMisc(o / 64, o % 64)
  }

  function DecodeMisc(hi: nat, lo: nat): Op {
    match lo
    case 4 => SetS
    case 12 => ClrS
    case 20 => TestS1
    case 24 => LoadConstant
    case 28 => TestS0
    case 32 => SelRom
    case 36 => TestPEq
    case 40 => Data
    case 44 => TestPNe
    case 52 => DelSelRom
    case 56 => Data
    case 60 => SetP
    case 0 => if hi == 0 then Nop else BadOp
    case 8 => if hi == 1 then ClearS else if hi == 13 then BadOp else Data
    case 16 => DecodeTransfer(hi)
    case 48 => if hi == 8 then BankSwitch else if hi == 12 then RomSelftest else if hi == 15 then Nop
               else if 9 <= hi <= 11 then Data else BadOp
    case _ => BadOp
  }

  function DecodeTransfer(hi: nat): Op {
    match hi
    case 0 => KeysToRom
    case 2 => AToRom
    case 6 => DecP
    case 7 => IncP
    case 8 => ReturnOp
    case _ => if hi < 6 then Data else BadOp
  }

  /** The arithmetic operations whose result can carry or borrow. */
  predicate Carries(op: nat) {
    9 <= op <= 13 || 15 <= op <= 21 || op == 28
  }

  /** The arithmetic comparisons. */
  predicate Compares(op: nat) {
    22 <= op <= 27
  }

  /** The operations that add or subtract one more. */
  predicate CarriesIn(op: nat) {
    op == 13 || op == 15 || op == 18 || op == 19 || op == 21
  }

  /** The field of the pointer, when the pointer stands beyond the register. */
  predicate NoDigits(o: nat, p: nat) {
    o / 4 % 8 == 0 && p >= 14
  }

  /** The carry after arithmetic. Over no digits it is what the operation starts with. */
  predicate ArithCarry(o: nat, p: nat, carryOut: bool) {
    var op := o / 32;
    if !Carries(op) && !Compares(op) then false
    else if NoDigits(o, p) then CarriesIn(op) || op == 26 || op == 27
    else carryOut
  }

  function PSetMap(n: nat): nat
    requires n < 16
  {
    [14, 4, 7, 8, 11, 2, 10, 12, 1, 3, 13, 6, 0, 9, 5, 14][n]
  }

  function PTestMap(n: nat): nat
    requires n < 16
  {
    [4, 8, 12, 2, 9, 1, 6, 3, 1, 13, 5, 0, 11, 10, 7, 4][n]
  }

  /** The carry after testing the pointer for equality. After two increments in a row a test for zero at
      three known addresses also accepts one. */
  function PointerDiffers(f: Flags, prevPc: nat, val: nat): bool
    requires |f.pChange| == 3
  {
    if val == 0 && f.pChange[1] == 1 && f.pChange[2] == 1 && (prevPc == 3138 || prevPc == 3162 || prevPc == 2703)
    then f.p != 0 && f.p != 1
    else f.p != val
  }

  /** What the operations do to carry, pointer and status bits. */
  function FlagsOp(f: Flags, op: Op, o: nat, prevPc: nat, x: Inputs): (r: Flags)
    requires |f.s| == 16 && |f.pChange| == 3 && o < 1024
    ensures |r.s| == 16 && |r.pChange| == 3 && r.prevCarry == f.prevCarry
  {
    var n := o / 64;
    match op
    case ArithField => f.(carry := ArithCarry(o, f.p, x.carryOut))
    case SetS => f.(s := f.s[n := true])
    case ClrS => f.(s := f.s[n := false])
    case ClearS => f.(s := Cleared(f.s))
    case TestS1 => f.(carry := !f.s[n])
    case TestS0 => f.(carry := f.s[n])
    case TestPEq => f.(carry := PointerDiffers(f, prevPc, PTestMap(n)))
    case TestPNe => f.(carry := !PointerDiffers(f, prevPc, PTestMap(n)))
    case SetP => f.(p := PSetMap(n))
    case IncP => f.(p := if f.p + 1 >= 14 then 0 else f.p + 1, pChange := f.pChange[0 := 1])
    case DecP => f.(p := if f.p == 0 then 13 else f.p - 1, pChange := f.pChange[0 := -1])
    case LoadConstant => f.(p := if f.p == 0 then 13 else f.p - 1)
    case _ => f
  }

  /** All status bits but 1, 2, 5 and 15. */
  function Cleared(s: seq<bool>): (r: seq<bool>)
    requires |s| == 16
    ensures |r| == 16
  {
    seq(16, i requires 0 <= i < 16 => (i == 1 || i == 2 || i == 5 || i == 15) && s[i])
  }

  /** A page is 256 words: an address within the current one. */
  function InPage(pc: nat, low: nat): nat {
    pc / 256 * 256 + low
  }

  /** The instructions that continue with a second word. */
  predicate Tests(op: Op, o: nat) {
    op == TestS1 || op == TestS0 || op == TestPEq || op == TestPNe || (op == ArithField && Compares(o / 32))
  }

  /** What the operations do to the flow of control. */
  function ControlOp(c: Control, op: Op, o: nat, prevCarry: bool, x: Inputs): Control
    requires Proper(c.calls) && c.bank < 2
  {
    if Tests(op, o) then c.(inst := ThenGoto)
    else
      match op
      case Goto => if prevCarry then c else c.(pc := InPage(c.pc, o / 4))
      case Jsb => c.(calls := ReturnStacks.Jsb(c.calls, c.pc), pc := InPage(c.pc, o / 4))
      case ReturnOp => Returned(c)
      case SelRom => c.(pc := o / 64 * 256 + c.pc % 256)
      case DelSelRom => c.(delRom := o / 64, delRomFlag := true)
      case KeysToRom => c.(pc := InPage(c.pc, if x.keyCode < 0 then 0 else x.keyCode))
      case AToRom => c.(pc := InPage(c.pc, x.digits))
      case BankSwitch => c.(bank := 1 - c.bank)
      case RomSelftest => c.(inst := Selftest, pc := c.pc / 1024 * 1024)
      case _ => c
  }

  function Returned(c: Control): Control
    requires Proper(c.calls)
  {
    var (pc, calls) := Return(c.calls);
    c.(pc := pc, calls := calls)
  }

  // ---------- one cycle ----------

  /** Outside the Spice series, bank 1 is left as soon as the lowest page is entered. */
  function Bank(c: Control, k: Model): nat {
    if !k.spice && c.pc < 1024 && c.bank == 1 then 0 else c.bank
  }

  /** The bank a word is fetched from: a page that does not have the selected bank answers with bank 0. */
  function FetchBank(m: Act, rom: Rom, k: Model): (b: nat)
    requires Inv(m) && ValidRom(rom)
    ensures b < 2
  {
    var bank := if k.bankFromS0 then (if m.fl.s[0] then 1 else 0) else Bank(m.ctl, k);
    if bank in rom.banks[m.ctl.pc / 1024] then bank else 0
  }

  function Fetch(m: Act, rom: Rom, k: Model): Word
    requires Inv(m) && ValidRom(rom)
  {
    rom.words[FetchBank(m, rom, k)][m.ctl.pc]
  }

  /** The cycle before the word is looked at. */
  function Begun(m: Act, k: Model): Act
    requires Inv(m)
  {
    Act(m.ctl.(bank := Bank(m.ctl, k), inst := if m.ctl.inst == ThenGoto then Normal else m.ctl.inst,
               delRomFlag := false, pc := (m.ctl.pc + 1) % 4096),
        m.fl.(pChange := [0, m.fl.pChange[0], m.fl.pChange[1]], prevCarry := m.fl.carry, carry := false),
        m.crc, m.ctl.pc)
  }

  /** The word taken as an instruction, as the target of a test, or into the checksum. */
  function Performed(b: Act, inst: InstState, w: Word, x: Inputs): Act
    requires Proper(b.ctl.calls) && b.ctl.bank < 2 && |b.fl.pChange| == 3 && |b.fl.s| == 16
  {
    var o := Number(w);
    match inst
    case Normal =>
      var op := Decode(o);
      b.(ctl := ControlOp(b.ctl, op, o, b.fl.prevCarry, x), fl := FlagsOp(b.fl, op, o, b.prevPc, x),
         crc := if op == RomSelftest then SEED else b.crc)
    case ThenGoto => if b.fl.prevCarry then b else b.(ctl := b.ctl.(pc := b.ctl.pc / 1024 * 1024 + o))
    case Selftest => Tested(b, w)
  }

  /** One word of the self-test; the last one ends it, with status bit 5 for an error. */
  function Tested(b: Act, w: Word): Act
    requires Proper(b.ctl.calls) && b.ctl.bank < 2 && |b.fl.s| == 16
  {
    var crc := Update(b.crc, w.bits);
    var ctl := if Number(w) == 560 then b.ctl.(bank := 1 - b.ctl.bank) else b.ctl;
    if ctl.pc % 1024 != 0 then b.(ctl := ctl, crc := crc)
    else b.(ctl := Returned(ctl).(inst := Normal),
        fl := b.fl.(s := if crc != GOOD then b.fl.s[5 := true] else b.fl.s), crc := crc)
  }

  /** A select delayed by the previous word overrides the page. */
  function Selected(before: Control, c: Control): Control {
    if before.delRomFlag then c.(pc := before.delRom * 256 + c.pc % 256) else c
  }

  /** The external lines set status bits at the end of every cycle. */
  function Polled(s: seq<bool>, x: Inputs, spice: bool): (r: seq<bool>)
    requires |s| == 16
    ensures |r| == 16
  {
    var f1 := x.f1 || (s[0] && x.f1IfS0);
    var s1 := if !spice && !f1 then s[5 := true] else s;
    var f2 := x.f2 || (s1[0] && x.f2IfS0);
    var s2 := if f2 then s1[3 := true] else s1;
    if x.key then s2[15 := true] else s2
  }

  /** A cycle that fetches this word. */
  function CycleOn(m: Act, w: Word, k: Model, x: Inputs): Act
    requires Inv(m) && ValidInputs(x)
  {
    var t := Performed(Begun(m, k), m.ctl.inst, w, x);
    t.(ctl := Selected(m.ctl, t.ctl), fl := t.fl.(s := Polled(t.fl.s, x, k.spice)))
  }

  function Cycle(m: Act, rom: Rom, k: Model, x: Inputs): Act
    requires Inv(m) && ValidRom(rom) && ValidInputs(x)
  {
    CycleOn(m, Fetch(m, rom, k), k, x)
  }

  /** The processor after power on and reset. */
  function PowerOn(): Act {
    Act(Control(0, Normal, false, 0, Circular(0, [0, 0]), 0), Flags(false, false, 0, [0, 0, 0], AllClear()), 0, 0)
  }

  function AllClear(): (s: seq<bool>)
    ensures |s| == 16
  {
    seq(16, _ => false)
  }

  // ---------- what every cycle keeps ----------

  /** A page is entered only at its own words. */
  lemma InPageRange(pc: nat, low: nat)
    requires pc < 4096 && low < 256
    ensures InPage(pc, low) < 4096 && InPage(pc, low) / 256 == pc / 256 && InPage(pc, low) % 256 == low
  {
  }

  lemma FlagsKept(f: Flags, op: Op, o: nat, prevPc: nat, x: Inputs)
    requires FlagsInRange(f) && o < 1024
    ensures FlagsInRange(FlagsOp(f, op, o, prevPc, x))
  {
  }

  lemma ControlKept(c: Control, op: Op, o: nat, prevCarry: bool, x: Inputs)
    requires ControlInRange(c) && !c.delRomFlag && c.inst == Normal && o < 1024 && ValidInputs(x)
    ensures ControlInRange(ControlOp(c, op, o, prevCarry, x))
  {
    hide InPage;
    if op == Goto || op == Jsb {
      InPageRange(c.pc, o / 4);
    } else if op == KeysToRom {
      InPageRange(c.pc, if x.keyCode < 0 then 0 else x.keyCode);
    } else if op == AToRom {
      InPageRange(c.pc, x.digits);
    }
  }

  /** A cycle in the normal state performs the operation of its word and then applies a pending select. */
  lemma NormalCycle(m: Act, w: Word, k: Model, x: Inputs)
    requires Inv(m) && ValidInputs(x) && m.ctl.inst == Normal
    ensures var c := Begun(m, k).ctl;
            && Proper(c.calls) && c.bank < 2 && c.pc == (m.ctl.pc + 1) % 4096 && !c.delRomFlag && c.inst == Normal
            && CycleOn(m, w, k, x).ctl == Selected(m.ctl, ControlOp(c, Decode(Number(w)), Number(w), m.fl.carry, x))
            && var f := Begun(m, k).fl;
            && |f.s| == 16 && |f.pChange| == 3 && !f.carry && f.p == m.fl.p
            && CycleOn(m, w, k, x).fl.carry == FlagsOp(f, Decode(Number(w)), Number(w), m.ctl.pc, x).carry
  {
    hide ControlOp, FlagsOp, Decode, Number, Polled, Selected;
  }

  lemma TestedKeepsInv(b: Act, w: Word)
    requires Inv(b) && b.ctl.inst == Selftest
    ensures Inv(Tested(b, w))
  {
    hide Update, Number;
  }

  lemma PerformedKeepsInv(b: Act, w: Word, x: Inputs)
    requires Inv(b) && ValidInputs(x) && !b.ctl.delRomFlag && b.ctl.inst == Normal
    ensures Inv(Performed(b, Normal, w, x)) && Inv(Performed(b, ThenGoto, w, x))
  {
    hide ControlOp, FlagsOp, Decode, Number;
    ControlKept(b.ctl, Decode(Number(w)), Number(w), b.fl.prevCarry, x);
    FlagsKept(b.fl, Decode(Number(w)), Number(w), b.prevPc, x);
  }

  lemma BegunKeepsInv(m: Act, k: Model)
    requires Inv(m)
    ensures Inv(Begun(m, k))
  {
  }

  lemma CycleKeepsInv(m: Act, w: Word, k: Model, x: Inputs)
    requires Inv(m) && ValidInputs(x)
    ensures Inv(CycleOn(m, w, k, x))
  {
    hide ControlOp, FlagsOp, Decode, Polled, Update, Number;
    var b := Begun(m, k);
    BegunKeepsInv(m, k);
    if m.ctl.inst == Selftest {
      TestedKeepsInv(b, w);
    } else {
      PerformedKeepsInv(b, w, x);
    }
    hide Tested, Returned;
  }

  /** The external lines set status bit 5 only outside the Spice series, and clear it never. */
  lemma PolledS5(s: seq<bool>, x: Inputs, spice: bool)
    requires |s| == 16
    ensures (s[5] ==> Polled(s, x, spice)[5]) && (spice ==> Polled(s, x, spice)[5] == s[5])
  {
  }

  /** A cycle of the self-test takes its word into the checksum. */
  lemma SelftestCycle(m: Act, w: Word, k: Model, x: Inputs)
    requires Inv(m) && ValidInputs(x) && m.ctl.inst == Selftest
    ensures var b, t := Begun(m, k), CycleOn(m, w, k, x);
            && Proper(b.ctl.calls) && b.ctl.bank < 2 && |b.fl.s| == 16 && b.ctl.pc == (m.ctl.pc + 1) % 4096
            && b.ctl.inst == Selftest && b.ctl.calls == m.ctl.calls && b.crc == m.crc && b.fl.s == m.fl.s
            && t.ctl == Tested(b, w).ctl && t.crc == Tested(b, w).crc && t.fl.s == Polled(Tested(b, w).fl.s, x, k.spice)
  {
    hide Tested, Polled;
  }
}
