/** The control side of the Nut processor of src/proc_nut.c over values: program counter, return stack,
    carry and the state between the words of an instruction. What the digit data path, the keyboard and the
    peripherals supply enters each cycle as an arbitrary input. */
module NutSpec {
  import opened ReturnStacks

  /** The 65536 words the processor sees through its page table. */
  type View = v: seq<nat> | |v| == 65536 && forall i :: 0 <= i < 65536 ==> v[i] < 1024 witness seq(65536, _ => 0)

  datatype InstState = Normal | LongBranch | Cxisa | Ldi | Selpf

  datatype Nut = Nut(pc: nat, inst: InstState, firstWord: nat, stack: Shifting, carry: bool, prevCarry: bool,
                     cxisaAddr: nat, awake: bool)

  /** The carry that a test, a digit operation or a peripheral computes, or that the display chip sets when a
      power off finds the display disabled; the address in digits 6 to 3 of register c; and the key code. */
  datatype Inputs = Inputs(carryOut: bool, address: nat, keyCode: nat)

  predicate ValidInputs(x: Inputs) {
    x.address < 65536 && x.keyCode < 256
  }

  ghost predicate Inv(m: Nut) {
    && m.pc < 65536 && m.firstWord < 1024 && m.cxisaAddr < 65536
    && (forall i :: 0 <= i < 4 ==> m.stack[i] < 65536)
    && (m.inst == LongBranch ==> m.firstWord % 4 == 1)
  }

  /** The operations the control side distinguishes. Plain stands for all that only move data. */
  datatype Op = LongBranchOp | ShortBranch | Arith | Test | SelectPeripheral | PopOp | PowerOff | GotoC
              | ReturnIfCarry | ReturnIfNoCarry | ReturnOp | LoadImmediate | PushC | PopC | KeysToRom | RomToC | Plain

  /** Which operation a word stands for, by its bit pattern. */
  function Decode(o: nat): Op {
    match o % 4
    case 1 => LongBranchOp
    case 2 => Arith
    case 3 => ShortBranch
    case _ => DecodeMisc(o / 64, o % 64)
  }

  function DecodeMisc(row: nat, col: nat): Op {
    match col
    case 0x0c => if row == 7 then Plain else Test
    case 0x14 => if row == 7 || row == 15 then Plain else Test
    case 0x2c => if row == 7 || row == 15 then Plain else Test
    case 0x24 => SelectPeripheral
    case 0x20 => DecodeControl(row)
    case 0x30 => DecodeTransfer(row)
    case _ => Plain
  }

  function DecodeControl(row: nat): Op {
    match row
    case 0 => PopOp
    case 1 => PowerOff
    case 4 => Test
    case 7 => GotoC
    case 13 => ReturnIfCarry
    case 14 => ReturnIfNoCarry
    case 15 => ReturnOp
    case _ => Plain
  }

  function DecodeTransfer(row: nat): Op {
    match row
    case 4 => LoadImmediate
    case 5 => PushC
    case 6 => PopC
    case 8 => KeysToRom
    case 12 => RomToC
    case _ => Plain
  }

  /** The arithmetic operations and comparisons that leave a carry. */
  predicate Carries(op: nat) {
    9 <= op <= 27
  }

  // ---------- branches ----------

  /** The signed distance in a short branch. */
  function Offset(o: nat): int
    requires o < 1024
  {
    o / 8 % 64 - if o / 512 == 1 then 64 else 0
  }

  function LongTarget(first: nat, second: nat): (t: nat)
    requires first < 1024 && second < 1024
    ensures t < 65536
  {
    first / 4 + second / 4 * 256
  }

  function Bit(b: bool): nat {
    if b then 1 else 0
  }

  /** What an operation does, the program counter standing at the next word and the carry cleared. */
  function Performed(b: Nut, op: Op, o: nat, x: Inputs): Nut
    requires o < 1024 && b.pc < 65536
  {
    match op
    case LongBranchOp => b.(inst := LongBranch, firstWord := o, carry := b.prevCarry)
    case ShortBranch => if o / 4 % 2 == Bit(b.prevCarry) then b.(pc := (b.pc + Offset(o) - 1) % 65536) else b
    case Arith => b.(carry := Carries(o / 32) && x.carryOut)
    case Test => b.(carry := x.carryOut)
    case SelectPeripheral => b.(inst := Selpf)
    case PopOp => Popped(b)
    case PowerOff => b.(awake := false, pc := 0, carry := x.carryOut)
    case GotoC => b.(pc := x.address)
    case ReturnIfCarry => if b.prevCarry then Returned(b) else b
    case ReturnIfNoCarry => if b.prevCarry then b else Returned(b)
    case ReturnOp => Returned(b)
    case LoadImmediate => b.(inst := Ldi)
    case PushC => b.(stack := Push(b.stack, x.address))
    case PopC => Popped(b)
    case KeysToRom => b.(pc := b.pc / 256 * 256 + x.keyCode % 256)
    case RomToC => b.(inst := Cxisa, cxisaAddr := x.address)
    case Plain => b
  }

  function Popped(b: Nut): Nut {
    b.(stack := Pop(b.stack).1)
  }

  function Returned(b: Nut): Nut {
    b.(pc := Pop(b.stack).0, stack := Pop(b.stack).1)
  }

  /** The second word of a long branch: a jump, or a call that comes straight back from a word of zero. */
  function Branched(b: Nut, o: nat, view: View): Nut
    requires o < 1024 && b.firstWord < 1024
  {
    var t := LongTarget(b.firstWord, o);
    if o % 2 != Bit(b.prevCarry) then b
    else if o / 2 % 2 == 1 then b.(pc := t)
    else
      var called := b.(stack := Push(b.stack, b.pc), pc := t);
      if view[t] == 0 then Returned(called) else called
  }

  /** A word for a selected peripheral: a test of one of its flags leaves the carry, and an odd word gives
      control back. */
  function Peripheral(b: Nut, o: nat, x: Inputs): Nut {
    b.(carry := o % 64 == 3 && x.carryOut, inst := if o % 2 == 1 then Normal else b.inst)
  }

  function FetchAddress(m: Nut): nat {
    if m.inst == Cxisa then m.cxisaAddr else m.pc
  }

  /** One cycle. The second cycle of a ROM read fetches its word elsewhere and does not advance. */
  function Cycle(m: Nut, view: View, x: Inputs): Nut
    requires Inv(m)
  {
    if !m.awake then m
    else
      var o := view[FetchAddress(m)];
      var b := m.(prevCarry := m.carry, carry := false);
      var next := b.(pc := (m.pc + 1) % 65536);
      match m.inst
      case Normal => Performed(next, Decode(o), o, x)
      case LongBranch => Branched(next.(inst := Normal), o, view)
      case Cxisa => b.(inst := Normal)
      case Ldi => next.(inst := Normal)
      case Selpf => Peripheral(next, o, x)
  }

  /** What a reset does to the control side: the carry is set. */
  function AfterReset(m: Nut): Nut {
    m.(awake := true, pc := 0, inst := Normal, carry := true)
  }

  /** A new processor after its first reset. */
  function PowerOn(): Nut {
    AfterReset(Nut(0, Normal, 0, [0, 0, 0, 0], false, false, 0, false))
  }

  // ---------- what every cycle keeps ----------

  lemma PerformedKeepsInv(b: Nut, op: Op, o: nat, x: Inputs)
    requires Inv(b) && o < 1024 && ValidInputs(x) && b.inst == Normal && (op == LongBranchOp ==> o % 4 == 1)
    ensures Inv(Performed(b, op, o, x))
  {
    hide Offset;
  }

  lemma LongBranchWords(o: nat)
    ensures Decode(o) == LongBranchOp <==> o % 4 == 1
    ensures Decode(o) == ShortBranch <==> o % 4 == 3
    ensures Decode(o) == Arith <==> o % 4 == 2
  {
    NoBranchMisc(o / 64, o % 64);
    hide DecodeMisc;
  }

  lemma NoBranchMisc(row: nat, col: nat)
    ensures DecodeMisc(row, col) !in {LongBranchOp, ShortBranch, Arith}
  {
  }

  /** Addresses keep their sixteen bits. */
  lemma CycleKeepsInv(m: Nut, view: View, x: Inputs)
    requires Inv(m) && ValidInputs(x)
    ensures Inv(Cycle(m, view, x))
  {
    if m.awake {
      var o := view[FetchAddress(m)];
      var b := m.(prevCarry := m.carry, carry := false, pc := (m.pc + 1) % 65536);
      if m.inst == Normal {
        LongBranchWords(o);
        PerformedKeepsInv(b, Decode(o), o, x);
      }
      hide Performed, Decode;
    }
  }
}
