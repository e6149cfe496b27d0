/** The code of src/proc_nut.c that moves the control side, its page table, and the code of src/dis_nut.c:
    objects whose fields change in place. */
module NutChip {
  import opened ReturnStacks
  import opened NutSpec
  import opened NutDis

  // ---------- the table of operations ----------

  /** itmap: the rows of the instructions that select a digit or bit, and tmap, its inverse. */
  const ITMAP: seq<nat> := [14, 12, 8, 0, 1, 2, 5, 10, 4, 9, 3, 6, 13, 11]
  const TMAP: seq<nat> := [3, 4, 5, 10, 8, 6, 11, 14, 2, 9, 7, 13, 1, 12, 0, 14]

  lemma ItmapInverse(i: nat, row: nat)
    requires i < 14 && row < 16
    ensures ITMAP[i] < 16 && (TMAP[row] == i <==> ITMAP[i] == row)
  {
  }

  /** The columns of the instructions in mapped rows; those that only move data stay Plain, like bad_op. */
  function Mapped(col: nat): Op {
    if col == 0x0c || col == 0x14 || col == 0x2c then Test else Plain
  }

  /** The four types of word. */
  function TypeOf(o: nat): Op {
    match o % 4
    case 1 => LongBranchOp
    case 2 => Arith
    case 3 => ShortBranch
    case _ => Plain
  }

  /** The table after k of the fourteen mapped rows. */
  function AfterMapped(o: nat, k: nat): Op
    requires o < 1024
  {
    if o % 4 == 0 && TMAP[o / 64] < k then Mapped(o % 64) else TypeOf(o)
  }

  /** The table after k rows of peripheral selects. */
  function AfterSelects(o: nat, k: nat): Op
    requires o < 1024
  {
    if o % 64 == 0x24 && o / 64 < k then SelectPeripheral
    else if o == 0x3cc then Test else if o == 0x3d4 then Plain else AfterMapped(o, 14)
  }

  /** nut_init_ops. */
  method InitOps(table: array<Op>)
    requires table.Length == 1024
    modifies table
    ensures forall o :: 0 <= o < 1024 ==> table[o] == Decode(o)
  {
    InitTypes(table);
    forall o | 0 <= o < 1024
      ensures table[o] == AfterMapped(o, 0)
    {
      NoRows(o);
    }
    InitMapped(table);
    table[0x3cc] := Test;
    table[0x3d4] := Plain;
    InitSelects(table);
    InitControl(table);
    InitTransfer(table);
    forall o | 0 <= o < 1024
      ensures table[o] == Decode(o)
    {
      TableIsDecoder(o);
    }
  }

  lemma NoRows(o: nat)
    requires o < 1024
    ensures AfterMapped(o, 0) == TypeOf(o)
  {
  }

  method InitTypes(table: array<Op>)
    requires table.Length == 1024
    modifies table
    ensures forall o :: 0 <= o < 1024 ==> table[o] == TypeOf(o)
  {
    var i := 0;
    while i < 1024
      invariant 0 <= i <= 1024 && i % 4 == 0
      invariant forall o :: 0 <= o < i ==> table[o] == TypeOf(o)
    {
      table[i], table[i + 1], table[i + 2], table[i + 3] := Plain, LongBranchOp, Arith, ShortBranch;
      i := i + 4;
    }
  }

  method InitMapped(table: array<Op>)
    requires table.Length == 1024
    requires forall o :: 0 <= o < 1024 ==> table[o] == AfterMapped(o, 0)
    modifies table
    ensures forall o :: 0 <= o < 1024 ==> table[o] == AfterMapped(o, 14)
  {
    for i := 0 to 14
      invariant forall o :: 0 <= o < 1024 ==> table[o] == AfterMapped(o, i)
    {
      InitMappedRow(table, i);
    }
  }

  method InitMappedRow(table: array<Op>, i: nat)
    requires table.Length == 1024 && i < 14
    requires forall o :: 0 <= o < 1024 ==> table[o] == AfterMapped(o, i)
    modifies table
    ensures forall o :: 0 <= o < 1024 ==> table[o] == AfterMapped(o, i + 1)
  {
    ghost var before := table[..];
    ItmapInverse(i, 0);
    MappedColumns(table, ITMAP[i] * 64);
    forall o | 0 <= o < 1024
      ensures table[o] == AfterMapped(o, i + 1)
    {
      assert before[o] == AfterMapped(o, i);
      MappedStep(o, i);
      hide AfterMapped, Mapped;
    }
  }

  /** The columns written in a row that starts at b. */
  function Written(o: nat, b: nat, otherwise: Op): Op {
    if o == b + 4 || o == b + 8 || o == b + 0x1c || o == b + 0x3c then Plain
    else if o == b + 0x0c || o == b + 0x14 || o == b + 0x2c then Test
    else otherwise
  }

  method MappedColumns(table: array<Op>, b: nat)
    requires b + 64 <= table.Length
    modifies table
    ensures forall o :: 0 <= o < table.Length ==> table[o] == Written(o, b, old(table[o]))
  {
    table[b + 4] := Plain;
    table[b + 8] := Plain;
    table[b + 0x0c] := Test;
    table[b + 0x14] := Test;
    table[b + 0x1c] := Plain;
    table[b + 0x2c] := Test;
    table[b + 0x3c] := Plain;
  }

  lemma MappedStep(o: nat, i: nat)
    requires o < 1024 && i < 14
    ensures AfterMapped(o, i + 1) == Written(o, ITMAP[i] * 64, AfterMapped(o, i))
  {
    var row, col := o / 64, o % 64;
    assert o == 64 * row + col && o % 4 == col % 4;
    ItmapInverse(i, row);
    if ITMAP[i] != row {
      OtherRow(row, col, ITMAP[i]);
    }
  }

  lemma OtherRow(row: nat, col: nat, other: nat)
    requires col < 64 && row != other
    ensures !(other * 64 <= 64 * row + col < other * 64 + 64)
  {
  }

  /** The other columns of these loops only move data. */
  method InitSelects(table: array<Op>)
    requires table.Length == 1024
    requires forall o :: 0 <= o < 1024 ==> table[o] == AfterSelects(o, 0)
    modifies table
    ensures forall o :: 0 <= o < 1024 ==> table[o] == AfterSelects(o, 16)
  {
    for i := 0 to 16
      invariant forall o :: 0 <= o < 1024 ==> table[o] == AfterSelects(o, i)
    {
      ghost var before := table[..];
      table[0x24 + i * 64] := SelectPeripheral;
      forall o | 0 <= o < 1024
        ensures table[o] == AfterSelects(o, i + 1)
      {
        assert before[o] == AfterSelects(o, i);
        SelectStep(o, i);
        hide AfterSelects;
      }
    }
  }

  lemma SelectStep(o: nat, i: nat)
    requires o < 1024 && i < 16
    ensures AfterSelects(o, i + 1) == if o == 0x24 + i * 64 then SelectPeripheral else AfterSelects(o, i)
  {
    hide AfterMapped;
  }

  method InitControl(table: array<Op>)
    requires table.Length == 1024
    modifies table
    ensures forall o :: 0 <= o < 1024 ==> table[o] == AfterControl(o, old(table[o]))
  {
    table[0x020] := PopOp;
    table[0x060] := PowerOff;
    table[0x120] := Test;
    table[0x160] := Plain;
    table[0x1e0] := GotoC;
    table[0x360] := ReturnIfCarry;
    table[0x3a0] := ReturnIfNoCarry;
    table[0x3e0] := ReturnOp;
  }

  function AfterControl(o: nat, otherwise: Op): Op {
    match o
    case 0x020 => PopOp
    case 0x060 => PowerOff
    case 0x120 => Test
    case 0x160 => Plain
    case 0x1e0 => GotoC
    case 0x360 => ReturnIfCarry
    case 0x3a0 => ReturnIfNoCarry
    case 0x3e0 => ReturnOp
    case _ => otherwise
  }

  method InitTransfer(table: array<Op>)
    requires table.Length == 1024
    modifies table
    ensures forall o :: 0 <= o < 1024 ==> table[o] == AfterTransfer(o, old(table[o]))
  {
    table[0x130] := LoadImmediate;
    table[0x170] := PushC;
    table[0x1b0] := PopC;
    table[0x230] := KeysToRom;
    table[0x330] := RomToC;
  }

  function AfterTransfer(o: nat, otherwise: Op): Op {
    match o
    case 0x130 => LoadImmediate
    case 0x170 => PushC
    case 0x1b0 => PopC
    case 0x230 => KeysToRom
    case 0x330 => RomToC
    case _ => otherwise
  }

  /** The loops and single assignments together are the decoder by bit pattern. */
  lemma TableIsDecoder(o: nat)
    requires o < 1024
    ensures AfterTransfer(o, AfterControl(o, AfterSelects(o, 16))) == Decode(o)
  {
    var row, col := o / 64, o % 64;
    assert o == 64 * row + col && o % 4 == col % 4;
    if col == 0x20 {
      assert o == 64 * row + 0x20;
    } else if col == 0x30 {
      assert o == 64 * row + 0x30;
    }
  }

  class Chip {
    var pc: nat
    var inst: InstState
    var firstWord: nat
    const stack: array<nat>
    var carry: bool
    var prevCarry: bool
    var cxisaAddr: nat
    var awake: bool

    predicate Shaped() {
      stack.Length == 4
    }

    function Now(): Nut
      requires Shaped()
      reads this, stack
    {
      Nut(pc, inst, firstWord, stack[..], carry, prevCarry, cxisaAddr, awake)
    }

    method OpReturn()
      requires Shaped()
      modifies this`pc, stack
      ensures Now() == Returned(old(Now()))
    {
      var a := PopAddress(stack);
      pc := a;
    }

    method OpShortBranch(o: nat)
      requires Shaped() && o < 1024 && pc < 65536
      modifies this`pc
      ensures Now() == Performed(old(Now()), ShortBranch, o, Inputs(false, 0, 0))
    {
      var offset: int := o / 8 % 64;
      if o / 512 == 1 {
        offset := offset - 64;
      }
      if o / 4 % 2 == Bit(prevCarry) {
        pc := (pc + offset - 1) % 65536;
      }
    }

    method OpLongBranchWord2(o: nat, view: View)
      requires Shaped() && o < 1024 && firstWord < 1024
      modifies this`pc, this`inst, stack
      ensures Now() == Branched(old(Now()).(inst := Normal), o, view)
    {
      hide LongTarget;
      inst := Normal;
      var target := LongTarget(firstWord, o);
      if o % 2 == Bit(prevCarry) {
        if o / 2 % 2 == 1 {
          pc := target;
        } else {
          PushAddress(stack, pc);
          pc := target;
          if view[pc] == 0 {
            OpReturn();
          }
        }
      }
    }

    /** The stack operations and the jumps that depend on data. */
    method OpStackAndJump(op: Op, o: nat, x: Inputs)
      requires Shaped() && o < 1024 && pc < 65536 && op in {PopOp, PopC, PushC, GotoC, KeysToRom, PowerOff}
      modifies this`pc, this`awake, this`carry, stack
      ensures Now() == Performed(old(Now()), op, o, x)
    {
      if op == PopOp || op == PopC {
        var _ := PopAddress(stack);
      } else if op == PushC {
        PushAddress(stack, x.address);
      } else if op == GotoC {
        pc := x.address;
      } else if op == KeysToRom {
        pc := pc / 256 * 256 + x.keyCode % 256;
      } else {
        awake := false;
        pc := 0;
        // The sleep event: with the display disabled the display chip sets the carry.
        carry := x.carryOut;
      }
    }

    method Perform(o: nat, x: Inputs)
      requires Shaped() && o < 1024 && Inv(Now()) && ValidInputs(x)
      modifies this, stack
      ensures Now() == Performed(old(Now()), Decode(o), o, x)
    {
      var op := Decode(o);
      hide Decode, Offset;
      if op == ShortBranch {
        OpShortBranch(o);
      } else if op in {PopOp, PopC, PushC, GotoC, KeysToRom, PowerOff} {
        OpStackAndJump(op, o, x);
      } else if op in {ReturnIfCarry, ReturnIfNoCarry, ReturnOp} {
        if op == ReturnOp || (op == ReturnIfCarry && prevCarry) || (op == ReturnIfNoCarry && !prevCarry) {
          OpReturn();
        }
      } else {
        OpState(op, o, x);
      }
    }

    /** The operations that begin a longer instruction or set the carry. */
    method OpState(op: Op, o: nat, x: Inputs)
      requires Shaped() && o < 1024 && pc < 65536
      requires op in {LongBranchOp, LoadImmediate, RomToC, SelectPeripheral, Arith, Test, Plain}
      modifies this`inst, this`firstWord, this`carry, this`cxisaAddr
      ensures Now() == Performed(old(Now()), op, o, x)
    {
      if op == LongBranchOp {
        inst := LongBranch;
        firstWord := o;
        carry := prevCarry;
      } else if op == LoadImmediate {
        inst := Ldi;
      } else if op == RomToC {
        inst := Cxisa;
        cxisaAddr := x.address;
      } else if op == SelectPeripheral {
        inst := Selpf;
      } else if op == Arith {
        carry := 9 <= o / 32 <= 27 && x.carryOut;
      } else if op == Test {
        carry := x.carryOut;
      }
    }

    /** nut_reset. */
    method Reset()
      requires Shaped() && Inv(Now())
      modifies this`awake, this`pc, this`inst, this`carry
      ensures Now() == AfterReset(old(Now())) && Inv(Now())
    {
      awake := true;
      pc := 0;
      inst := Normal;
      carry := true;
    }

    /** A key, the timer or the printer wakes the processor; nothing else changes on the control side. */
    method WakeUp()
      requires Shaped() && Inv(Now())
      modifies this`awake
      ensures Now() == old(Now()).(awake := true) && Inv(Now())
    {
      awake := true;
    }

    /** nut_execute_cycle. */
    method ExecuteCycle(view: View, x: Inputs)
      requires Shaped() && Inv(Now()) && ValidInputs(x)
      modifies this, stack
      ensures Now() == Cycle(old(Now()), view, x) && Inv(Now())
    {
      CycleKeepsInv(Now(), view, x);
      if !awake {
        return;
      }
      var o := view[if inst == Cxisa then cxisaAddr else pc];
      prevCarry := carry;
      carry := false;
      hide Performed, Branched, Decode;
      if inst == Cxisa {
        inst := Normal;
        return;
      }
      pc := (pc + 1) % 65536;
      match inst
      case Normal => Perform(o, x);
      case LongBranch => OpLongBranchWord2(o, view);
      case Ldi => inst := Normal;
      case Selpf =>
        if o % 64 == 3 {
          carry := x.carryOut;
        }
        if o % 2 == 1 {
          inst := Normal;
        }
    }
  }

  class Disassembler {
    var addr: nat
    var inst: InstState
    var clear: bool
    var flow: Flow
    var target: nat

    function Now(): Dis
      reads this
    {
      Dis(addr, inst, clear, flow, target)
    }

    /** nut_disassemble_misc, as far as state, flow and carry are concerned. */
    method DisassembleMisc(op1: nat) returns (newClear: bool)
      requires op1 < 1024 && op1 % 4 == 0
      modifies this`inst, this`flow
      ensures Now() == DisNormal(old(Now()), old(clear), op1, 0, false) && newClear == LeavesCarryClear(op1)
    {
      newClear := true;
      flow := NoBranch;
      var col := op1 % 64;
      if col == 0x0c || col == 0x2c {
        newClear := false;
      } else if col == 0x14 {
        if op1 != 0x3d4 {
          newClear := false;
        }
      } else if col == 0x20 {
        if Op20CanCarry(op1 / 64) {
          newClear := false;
        }
        flow := Op20Flow(op1 / 64);
      } else if col == 0x24 {
        inst := Selpf;
      }
    }

    method DisassembleLongBranch(op1: nat, op2: nat)
      requires op1 < 1024 && op2 < 1024 && op1 % 4 == 1
      modifies this`flow, this`target
      ensures Now() == DisNormal(old(Now()), clear, op1, op2, false)
    {
      target := LongTarget(op1, op2);
      var onCarry := op2 % 2 == 1;
      var call := op2 / 2 % 2 == 0;
      var uncond := !onCarry && clear;
      if call {
        flow := SubroutineCall;
      } else {
        flow := if uncond then UncondBranch else CondBranch;
      }
    }

    /** nut_disassemble_short_branch. `uncond` starts as `junk`, for nothing initializes it. */
    method DisassembleShortBranch(op1: nat, junk: bool)
      requires op1 < 1024 && op1 % 4 == 3
      modifies this`flow, this`target
      ensures Now() == DisNormal(old(Now()), clear, op1, 0, junk)
    {
      var offset: int := op1 / 8 % 64;
      if op1 / 512 == 1 {
        offset := offset - 64;
      }
      target := (addr + offset - 1) % 65536;
      var uncond := junk;
      if op1 / 4 % 2 != 1 && clear {
        uncond := true;
      }
      flow := if uncond then UncondBranch else CondBranch;
    }

    /** nut_disassemble, over the words it reads. */
    method Disassemble(view: View, junk: bool)
      requires addr < 65536 && (inst == Normal || inst == Selpf)
      modifies this
      ensures Now() == Disassembled(old(Now()), view[old(addr)], view[(old(addr) + 1) % 65536], junk)
    {
      hide LeavesCarryClear, Offset, LongTarget, Op20Flow;
      ghost var before := Now();
      var op1 := view[addr];
      flow := NoBranch;
      addr := (addr + 1) % 65536;
      var op2 := 0;
      if inst == Normal && TwoWord(op1) {
        op2 := view[addr];
        TwoOn(before.addr);
        addr := (addr + 1) % 65536;
      }
      if inst == Selpf {
        if op1 % 2 == 1 {
          inst := Normal;
        }
        clear := true;
      } else {
        ghost var b := Now();
        var newClear := true;
        if op1 % 4 == 0 {
          newClear := DisassembleMisc(op1);
        } else if op1 % 4 == 1 {
          DisassembleLongBranch(op1, op2);
        } else if op1 % 4 == 2 {
          newClear := !ArithCanCarry(op1 / 32);
        } else {
          DisassembleShortBranch(op1, junk);
        }
        assert newClear == LeavesCarryClear(op1) by {
          ClearByType(op1);
        }
        SecondWordOnlyForBranches(b, op1, op2, view[(before.addr + 1) % 65536], junk);
        FlowForgotten(before, b, op1, view[(before.addr + 1) % 65536], junk);
        hide DisNormal;
        clear := newClear;
      }
    }
  }

  lemma ClearByType(op1: nat)
    requires op1 < 1024
    ensures op1 % 4 == 2 ==> (LeavesCarryClear(op1) <==> !ArithCanCarry(op1 / 32))
    ensures op1 % 4 == 1 || op1 % 4 == 3 ==> LeavesCarryClear(op1)
  {
  }

  lemma SecondWordOnlyForBranches(b: Dis, op1: nat, op2: nat, other: nat, junk: bool)
    requires op1 < 1024 && op2 < 1024 && other < 1024 && (TwoWord(op1) ==> op2 == other)
    ensures DisNormal(b, b.clear, op1, op2, junk) == DisNormal(b, b.clear, op1, other, junk)
    ensures op1 % 4 == 0 || op1 % 4 == 1
            ==> DisNormal(b, b.clear, op1, other, false) == DisNormal(b, b.clear, op1, other, junk)
    ensures op1 % 4 != 1 ==> DisNormal(b, b.clear, op1, 0, junk) == DisNormal(b, b.clear, op1, other, junk)
  {
  }

  /** Every type of word sets the flow anew. */
  lemma FlowForgotten(before: Dis, b: Dis, op1: nat, op2: nat, junk: bool)
    requires op1 < 1024 && op2 < 1024 && b == before.(addr := b.addr, flow := NoBranch)
    ensures DisNormal(b, b.clear, op1, op2, junk) == DisNormal(before.(addr := b.addr), before.clear, op1, op2, junk)
  {
  }
}
