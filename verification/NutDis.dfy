/** The Nut disassembler of src/dis_nut.c, without its text and with the 41-jump flag off: addresses,
    instruction state, flow and what it knows about the carry; and its agreement with the interpreter. */
module NutDis {
  import opened ReturnStacks
  import opened NutSpec

  datatype Flow = NoBranch | CondBranch | UncondBranch | SubroutineCall | CondReturn | SubroutineReturn

  /** The variables nut_disassemble keeps from instruction to instruction. */
  datatype Dis = Dis(addr: nat, inst: InstState, clear: bool, flow: Flow, target: nat)

  // ---------- tables ----------

  /** nut_op20: whether the instruction can set the carry, and its flow. */
  const OP20_CARRY: seq<bool> :=
    [false, false, false, false, true, true, false, false, false, false, false, false, false, false, false, false]
  const OP20_FLOW: seq<Flow> :=
    [NoBranch, NoBranch, NoBranch, NoBranch, NoBranch, NoBranch, NoBranch, NoBranch, NoBranch, NoBranch, NoBranch,
     NoBranch, NoBranch, CondReturn, CondReturn, SubroutineReturn]

  /** nut_arith_info: whether the operation can set the carry. */
  const ARITH_CARRY: seq<bool> :=
    [false, false, false, false, false, false, false, false, false, true, true, true, true, true, true, true,
     true, true, true, true, true, true, true, true, true, true, true, true, false, false, false, false]

  predicate ArithCanCarry(op: nat)
    requires op < 32
  {
    ARITH_CARRY[op]
  }

  predicate Op20CanCarry(row: nat)
    requires row < 16
  {
    OP20_CARRY[row]
  }

  function Op20Flow(row: nat): Flow
    requires row < 16
  {
    OP20_FLOW[row]
  }

  /** nut_two_word_instruction. */
  predicate TwoWord(op1: nat) {
    match op1 % 4
    case 0 => op1 == 0x130
    case 1 => true
    case _ => false
  }

  // ---------- one instruction ----------

  /** What the disassembler thinks of the carry after an instruction in the normal state. */
  predicate LeavesCarryClear(op1: nat)
    requires op1 < 1024
  {
    match op1 % 4
    case 0 =>
      var col := op1 % 64;
      !(col == 0x0c || col == 0x2c || (col == 0x14 && op1 != 0x3d4) || (col == 0x20 && Op20CanCarry(op1 / 64)))
    case 2 => !ArithCanCarry(op1 / 32)
    case _ => true
  }

  /** Whether a branch on no carry is known to be taken. */
  predicate KnownTaken(clear: bool, onCarry: bool) {
    !onCarry && clear
  }

  /** The instruction at b's address minus one or two, b already standing behind it. The flow of a short
      branch whose condition is not known to hold comes from a variable that nothing has set: `junk`. */
  function DisNormal(b: Dis, clear: bool, op1: nat, op2: nat, junk: bool): Dis
    requires op1 < 1024 && op2 < 1024
  {
    match op1 % 4
    case 0 => b.(flow := if op1 % 64 == 0x20 then Op20Flow(op1 / 64) else NoBranch,
                 inst := if op1 % 64 == 0x24 then Selpf else b.inst)
    case 1 => b.(target := LongTarget(op1, op2),
                 flow := if op2 / 2 % 2 == 0 then SubroutineCall
                         else if KnownTaken(clear, op2 % 2 == 1) then UncondBranch else CondBranch)
    case 2 => b.(flow := NoBranch)
    case _ => b.(target := (b.addr + Offset(op1) - 1) % 65536,
                 flow := if KnownTaken(clear, op1 / 4 % 2 == 1) || junk then UncondBranch else CondBranch)
  }

  function Length(inst: InstState, op1: nat): nat {
    if inst == Normal && TwoWord(op1) then 2 else 1
  }

  /** nut_disassemble. In the peripheral state it believes that every word leaves the carry clear. */
  function Disassembled(d: Dis, op1: nat, op2: nat, junk: bool): Dis
    requires op1 < 1024 && op2 < 1024 && (d.inst == Normal || d.inst == Selpf)
  {
    var b := d.(addr := (d.addr + Length(d.inst, op1)) % 65536);
    if d.inst == Selpf then b.(inst := if op1 % 2 == 1 then Normal else Selpf, flow := NoBranch, clear := true)
    else DisNormal(b, d.clear, op1, op2, junk).(clear := LeavesCarryClear(op1))
  }

  // ---------- an instruction of the interpreter ----------

  /** All the cycles of an instruction: a second one for the second word of a branch or a load, or for
      reading a word of ROM. */
  function Instruction(m: Nut, view: View, x: Inputs, y: Inputs): Nut
    requires Inv(m) && ValidInputs(x)
  {
    var t := Cycle(m, view, x);
    CycleKeepsInv(m, view, x);
    if t.inst == LongBranch || t.inst == Ldi || t.inst == Cxisa then Cycle(t, view, y) else t
  }

  /** Whether the instruction leaves the sequence of words. */
  predicate Redirects(m: Nut, o1: nat, o2: nat) {
    m.inst == Normal && if Decode(o1) == LongBranchOp then o2 % 2 == Bit(m.carry) else Leaves(Decode(o1), o1, m.carry)
  }

  predicate JumpsTo(m: Nut, o1: nat, o2: nat, view: View)
    requires o1 < 1024 && o2 < 1024
  {
    m.inst == Normal && Redirects(m, o1, o2)
    && (Decode(o1) == ShortBranch || (Decode(o1) == LongBranchOp && (o2 / 2 % 2 == 1 || view[LongTarget(o1, o2)] != 0)))
  }

  /** The words of an instruction. */
  function FirstWord(m: Nut, view: View): (o: nat)
    requires Inv(m)
    ensures o < 1024
  {
    view[m.pc]
  }

  function SecondWord(m: Nut, view: View): (o: nat)
    requires Inv(m)
    ensures o < 1024
  {
    view[(m.pc + 1) % 65536]
  }

  predicate Follows(d: Dis, m: Nut) {
    d.addr == m.pc && d.inst == m.inst && (m.inst == Normal || m.inst == Selpf)
  }

  lemma MiscColumns(row: nat, col: nat)
    requires row < 16 && col < 64
    ensures DecodeMisc(row, col) == LoadImmediate <==> row == 4 && col == 0x30
    ensures DecodeMisc(row, col) == SelectPeripheral <==> col == 0x24
    ensures DecodeMisc(row, col) == Test
            ==> col == 0x0c || col == 0x2c || (col == 0x14 && row != 15) || (col == 0x20 && Op20CanCarry(row))
  {
  }

  lemma MiscWords(o: nat)
    requires o < 1024 && o % 4 == 0
    ensures Decode(o) == LoadImmediate <==> TwoWord(o)
    ensures Decode(o) == SelectPeripheral <==> o % 64 == 0x24
    ensures Decode(o) == Test ==> !LeavesCarryClear(o)
  {
    var row, col := o / 64, o % 64;
    assert o == 64 * row + col;
    MiscColumns(row, col);
    hide DecodeMisc, Op20CanCarry;
  }

  lemma TwoWordIff(o: nat)
    requires o < 1024
    ensures TwoWord(o) <==> Decode(o) == LongBranchOp || Decode(o) == LoadImmediate
  {
    LongBranchWords(o);
    if o % 4 == 0 {
      MiscWords(o);
    }
    hide DecodeMisc, LeavesCarryClear;
  }

  lemma TwoOn(pc: nat)
    requires pc < 65536
    ensures ((pc + 1) % 65536 + 1) % 65536 == (pc + 2) % 65536
  {
  }

  /** The state as the operation finds it. */
  function Ready(m: Nut): Nut {
    m.(prevCarry := m.carry, carry := false, pc := (m.pc + 1) % 65536)
  }

  lemma LongBranchRuns(m: Nut, view: View, x: Inputs, y: Inputs)
    requires Inv(m) && ValidInputs(x) && m.awake && m.inst == Normal && Decode(FirstWord(m, view)) == LongBranchOp
    ensures FirstWord(m, view) < 1024
    ensures Instruction(m, view, x, y)
            == Branched(m.(pc := (m.pc + 2) % 65536, prevCarry := m.carry, carry := false,
                           firstWord := FirstWord(m, view)),
                        SecondWord(m, view), view)
  {
    TwoOn(m.pc);
    hide Decode, Branched;
  }

  lemma OtherRuns(m: Nut, view: View, x: Inputs, y: Inputs)
    requires Inv(m) && ValidInputs(x) && m.awake && m.inst == Normal && Decode(FirstWord(m, view)) != LongBranchOp
    ensures var o, op, t := FirstWord(m, view), Decode(FirstWord(m, view)), Instruction(m, view, x, y);
            if op == LoadImmediate then t == m.(pc := (m.pc + 2) % 65536, prevCarry := false, carry := false)
            else if op == RomToC then t == Ready(m).(prevCarry := false, cxisaAddr := x.address)
            else t == Performed(Ready(m), op, o, x)
  {
    TwoOn(m.pc);
    hide Decode;
  }

  /** The one-word operations that leave the sequence of words. */
  predicate Leaves(op: Op, o: nat, carry: bool) {
    match op
    case ShortBranch => o / 4 % 2 == Bit(carry)
    case PowerOff => true
    case GotoC => true
    case ReturnIfCarry => carry
    case ReturnIfNoCarry => !carry
    case ReturnOp => true
    case KeysToRom => true
    case _ => false
  }

  /** The state and the address after an instruction that is not a branch. */
  lemma Sequential(b: Nut, op: Op, o: nat, x: Inputs)
    requires o < 1024 && b.pc < 65536 && op !in {LongBranchOp, LoadImmediate, RomToC} && b.inst == Normal
    ensures var t := Performed(b, op, o, x);
            && (t.inst == if op == SelectPeripheral then Selpf else Normal)
            && (!Leaves(op, o, b.prevCarry) ==> t.pc == b.pc)
            && (op == ShortBranch && o / 4 % 2 == Bit(b.prevCarry) ==> t.pc == (b.pc + Offset(o) - 1) % 65536)
  {
    hide Offset;
  }

  /** The two decoders on one instruction: the state it ends in, the words it takes when it does not
      redirect, the target of every jump taken, and the address a call will return to. A call to a word of
      zero comes back at once, to the next instruction, but has pushed the oldest entry off the stack. */
  ghost predicate Agree(m: Nut, view: View, e: Dis, t: Nut)
    requires Inv(m)
  {
    var o1, o2 := FirstWord(m, view), SecondWord(m, view);
    && t.inst == e.inst
    && (!Redirects(m, o1, o2) ==> t.pc == e.addr)
    && (JumpsTo(m, o1, o2, view) ==> t.pc == e.target)
    && (m.inst == Normal && Decode(o1) == LongBranchOp && Redirects(m, o1, o2) && o2 / 2 % 2 == 0 ==>
          if view[LongTarget(o1, o2)] != 0 then t.stack == Push(m.stack, e.addr)
          else t.pc == e.addr && t.stack == m.stack[..3] + [0])
  }

  lemma LongBranchAgrees(m: Nut, view: View, x: Inputs, y: Inputs, d: Dis, junk: bool)
    requires Inv(m) && ValidInputs(x) && m.awake && Follows(d, m) && m.inst == Normal && FirstWord(m, view) % 4 == 1
    ensures Agree(m, view, Disassembled(d, FirstWord(m, view), SecondWord(m, view), junk), Instruction(m, view, x, y))
  {
    LongBranchWords(FirstWord(m, view));
    LongBranchRuns(m, view, x, y);
    hide Instruction, Decode, FirstWord, SecondWord, LeavesCarryClear, Leaves;
  }

  lemma OtherDisassembled(d: Dis, o: nat, o2: nat, junk: bool)
    requires o < 1024 && o2 < 1024 && o % 4 != 1 && d.inst == Normal && d.addr < 65536
    ensures Decode(o) != LongBranchOp
    ensures var e, next := Disassembled(d, o, o2, junk), (d.addr + 1) % 65536;
            && e.inst == (if Decode(o) == SelectPeripheral then Selpf else Normal)
            && e.addr == (if Decode(o) == LoadImmediate then (d.addr + 2) % 65536 else next)
            && (Decode(o) == ShortBranch ==> e.target == (next + Offset(o) - 1) % 65536)
  {
    TwoWordIff(o);
    LongBranchWords(o);
    if o % 4 == 0 {
      MiscWords(o);
      hide Decode;
    }
    hide DecodeMisc, LeavesCarryClear, TwoWord, Op20Flow;
  }

  lemma OtherAgrees(m: Nut, view: View, x: Inputs, y: Inputs, d: Dis, junk: bool)
    requires Inv(m) && ValidInputs(x) && m.awake && Follows(d, m) && m.inst == Normal && FirstWord(m, view) % 4 != 1
    ensures Agree(m, view, Disassembled(d, FirstWord(m, view), SecondWord(m, view), junk), Instruction(m, view, x, y))
  {
    var o := FirstWord(m, view);
    OtherDisassembled(d, o, SecondWord(m, view), junk);
    OtherRuns(m, view, x, y);
    hide Instruction, Decode, FirstWord, SecondWord, Disassembled, Performed, Offset;
    if Decode(o) == LoadImmediate || Decode(o) == RomToC {
    } else {
      Sequential(Ready(m), Decode(o), o, x);
      hide Leaves;
      OnlyShortBranches(m, o);
    }
  }

  lemma OnlyShortBranches(m: Nut, o: nat)
    requires Decode(o) != LongBranchOp
    ensures Leaves(ShortBranch, o, m.carry) <==> o / 4 % 2 == Bit(m.carry)
  {
  }

  /** The two decoders agree on every instruction. */
  lemma DecodersAgree(m: Nut, view: View, x: Inputs, y: Inputs, d: Dis, junk: bool)
    requires Inv(m) && ValidInputs(x) && m.awake && Follows(d, m)
    ensures Agree(m, view, Disassembled(d, FirstWord(m, view), SecondWord(m, view), junk), Instruction(m, view, x, y))
  {
    if m.inst == Selpf {
      hide Decode, LeavesCarryClear, TwoWord;
    } else if FirstWord(m, view) % 4 == 1 {
      hide Instruction, Agree;
      LongBranchAgrees(m, view, x, y, d, junk);
    } else {
      hide Instruction, Agree;
      OtherAgrees(m, view, x, y, d, junk);
    }
  }
}
