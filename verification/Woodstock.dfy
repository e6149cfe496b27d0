/** The code of src/proc_woodstock.c that moves the control side, and of src/dis_woodstock.c: objects whose
    fields change in place. */
module Woodstock {
  import opened ReturnStacks
  import opened WoodstockCrc
  import opened WoodstockSpec
  import opened WoodstockDis
  import opened WoodstockRuns

  // ---------- the table of operations ----------

  /** The table after k of the sixteen rows of the regular instructions. */
  function AfterRows(o: nat, k: nat): Op {
    var row, col := o / 64, o % 64;
    if o % 4 == 1 then Jsb
    else if o % 4 == 2 then ArithField
    else if o % 4 == 3 then Goto
    else if row < k then Regular(col)
    else BadOp
  }

  function Regular(col: nat): Op {
    match col
    case 4 => SetS
    case 12 => ClrS
    case 20 => TestS1
    case 24 => LoadConstant
    case 28 => TestS0
    case 32 => SelRom
    case 36 => TestPEq
    case 40 => Data
    case 44 => TestPNe
    case 52 => DelSelRom
    case 56 => Data
    case 60 => SetP
    case _ => BadOp
  }

  method InitOps(table: array<Op>)
    requires table.Length == 1024
    modifies table
    ensures forall o :: 0 <= o < 1024 ==> table[o] == Decode(o)
  {
    InitTypes(table);
    InitRows(table);
    InitColumn8(table);
    InitColumn16(table);
    InitColumn48(table);
    table[0] := Nop;
    forall o | 0 <= o < 1024
      ensures table[o] == Decode(o)
    {
      TableIsDecoder(o);
    }
  }

  method InitTypes(table: array<Op>)
    requires table.Length == 1024
    modifies table
    ensures forall o :: 0 <= o < 1024 ==> table[o] == AfterRows(o, 0)
  {
    var i := 0;
    while i < 1024
      invariant 0 <= i <= 1024 && i % 4 == 0
      invariant forall o :: 0 <= o < i ==> table[o] == AfterRows(o, 0)
    {
      table[i], table[i + 1], table[i + 2], table[i + 3] := BadOp, Jsb, ArithField, Goto;
      i := i + 4;
    }
  }

  method InitRows(table: array<Op>)
    requires table.Length == 1024
    requires forall o :: 0 <= o < 1024 ==> table[o] == AfterRows(o, 0)
    modifies table
    ensures forall o :: 0 <= o < 1024 ==> table[o] == AfterRows(o, 16)
  {
    for i := 0 to 16
      invariant forall o :: 0 <= o < 1024 ==> table[o] == AfterRows(o, i)
    {
      InitRow(table, i);
    }
  }

  method InitRow(table: array<Op>, i: nat)
    requires table.Length == 1024 && i < 16
    requires forall o :: 0 <= o < 1024 ==> table[o] == AfterRows(o, i)
    modifies table
    ensures forall o :: 0 <= o < 1024 ==> table[o] == AfterRows(o, i + 1)
  {
    ghost var before := table[..];
    LowColumns(table, i * 64);
    HighColumns(table, i * 64);
    forall o | 0 <= o < 1024
      ensures table[o] == AfterRows(o, i + 1)
    {
      assert before[o] == AfterRows(o, i);
      RowStep(o, i);
      hide AfterRows, Regular;
    }
  }

  /** The entries written in a row: those from one column to another. */
  function InRow(o: nat, b: nat, low: nat, high: nat, otherwise: Op): Op {
    if b + low <= o < b + high && Regular(o - b) != BadOp then Regular(o - b) else otherwise
  }

  lemma RowStep(o: nat, i: nat)
    requires o < 1024 && i < 16
    ensures AfterRows(o, i + 1) == InRow(o, i * 64, 32, 64, InRow(o, i * 64, 0, 32, AfterRows(o, i)))
  {
    var row, col := o / 64, o % 64;
    assert o == 64 * row + col && o % 4 == col % 4;
    RegularColumns(col);
    if row == i {
      assert o - i * 64 == col;
    } else {
      assert !(i * 64 <= o < i * 64 + 64);
    }
    hide Regular;
  }

  lemma RegularColumns(col: nat)
    ensures Regular(col) != BadOp ==> col % 4 == 0
  {
  }

  method LowColumns(table: array<Op>, b: nat)
    requires b + 64 <= table.Length
    modifies table
    ensures forall o :: 0 <= o < table.Length ==> table[o] == InRow(o, b, 0, 32, old(table[o]))
  {
    table[b + 4] := SetS;
    table[b + 12] := ClrS;
    table[b + 20] := TestS1;
    table[b + 24] := LoadConstant;
    table[b + 28] := TestS0;
  }

  method HighColumns(table: array<Op>, b: nat)
    requires b + 64 <= table.Length
    modifies table
    ensures forall o :: 0 <= o < table.Length ==> table[o] == InRow(o, b, 32, 64, old(table[o]))
  {
    table[b + 32] := SelRom;
    table[b + 36] := TestPEq;
    table[b + 40] := Data;
    table[b + 44] := TestPNe;
    assert forall o :: 0 <= o < table.Length ==> table[o] == InRow(o, b, 32, 48, old(table[o]));
    LastColumns(table, b);
  }

  method LastColumns(table: array<Op>, b: nat)
    requires b + 64 <= table.Length
    modifies table
    ensures forall o :: 0 <= o < table.Length ==> table[o] == InRow(o, b, 48, 64, old(table[o]))
  {
    table[b + 52] := DelSelRom;
    table[b + 56] := Data;
    table[b + 60] := SetP;
  }

  /** The single entries of three columns, from one row to another; the others keep what they had. */
  function Column8(o: nat, low: nat, high: nat, otherwise: Op): Op {
    if o % 64 != 8 || o / 64 < low || o / 64 >= high || o / 64 == 13 then otherwise
    else if o / 64 == 1 then ClearS
    else Data
  }

  function Column16(o: nat, low: nat, high: nat, otherwise: Op): Op {
    if o % 64 != 16 || o / 64 < low || o / 64 >= high then otherwise
    else
      match o / 64
      case 0 => KeysToRom
      case 2 => AToRom
      case 6 => DecP
      case 7 => IncP
      case 8 => ReturnOp
      case _ => Data
  }

  function Column48(o: nat, otherwise: Op): Op {
    if o % 64 != 48 then otherwise
    else match o / 64 case 8 => BankSwitch case 9 => Data case 10 => Data case 11 => Data case 12 => RomSelftest
                      case 15 => Nop case _ => otherwise
  }

  method InitColumn8(table: array<Op>)
    requires table.Length == 1024
    modifies table
    ensures forall o :: 0 <= o < 1024 ==> table[o] == Column8(o, 0, 16, old(table[o]))
  {
    table[8] := Data;
    table[72] := ClearS;
    table[136] := Data;
    table[200] := Data;
    assert forall o :: 0 <= o < 1024 ==> table[o] == Column8(o, 0, 4, old(table[o]));
    InitColumn8Middle(table);
    InitColumn8High(table);
  }

  method InitColumn8Middle(table: array<Op>)
    requires table.Length == 1024
    modifies table
    ensures forall o :: 0 <= o < 1024 ==> table[o] == Column8(o, 4, 10, old(table[o]))
  {
    table[264] := Data;
    table[328] := Data;
    table[392] := Data;
    table[456] := Data;
    table[520] := Data;
    table[584] := Data;
  }

  method InitColumn8High(table: array<Op>)
    requires table.Length == 1024
    modifies table
    ensures forall o :: 0 <= o < 1024 ==> table[o] == Column8(o, 10, 16, old(table[o]))
  {
    table[648] := Data;
    table[712] := Data;
    table[776] := Data;
    table[904] := Data;
    table[968] := Data;
  }

  method InitColumn16(table: array<Op>)
    requires table.Length == 1024
    modifies table
    ensures forall o :: 0 <= o < 1024 ==> table[o] == Column16(o, 0, 9, old(table[o]))
  {
    table[16] := KeysToRom;
    table[80] := Data;
    table[144] := AToRom;
    table[208] := Data;
    table[272] := Data;
    assert forall o :: 0 <= o < 1024 ==> table[o] == Column16(o, 0, 5, old(table[o]));
    InitColumn16High(table);
  }

  method InitColumn16High(table: array<Op>)
    requires table.Length == 1024
    modifies table
    ensures forall o :: 0 <= o < 1024 ==> table[o] == Column16(o, 5, 9, old(table[o]))
  {
    table[336] := Data;
    table[400] := DecP;
    table[464] := IncP;
    table[528] := ReturnOp;
  }

  method InitColumn48(table: array<Op>)
    requires table.Length == 1024
    modifies table
    ensures forall o :: 0 <= o < 1024 ==> table[o] == Column48(o, old(table[o]))
  {
    table[560], table[624], table[688], table[752] := BankSwitch, Data, Data, Data;
    table[816], table[1008] := RomSelftest, Nop;
  }

  function Table(o: nat): Op {
    if o == 0 then Nop else Column48(o, Column16(o, 0, 9, Column8(o, 0, 16, AfterRows(o, 16))))
  }

  /** The table the loops and assignments build holds, for every word, the operation its bit pattern names. */
  lemma TableIsDecoder(o: nat)
    requires o < 1024
    ensures Table(o) == Decode(o)
  {
    var row, col := o / 64, o % 64;
    assert o == 64 * row + col && o % 4 == col % 4;
    if o % 4 == 0 {
      MiscTable(row, col);
    }
  }

  lemma MiscTable(row: nat, col: nat)
    requires row < 16 && col < 64
    ensures Table(64 * row + col) == DecodeMisc(row, col) || col % 4 != 0
  {
    var o := 64 * row + col;
    assert o / 64 == row && o % 64 == col;
  }

  lemma AtLeastOne(c: Control)
    requires c.inst != Normal
    ensures CyclesLeft(c) >= 1
  {
  }

  lemma CycleEnds(m: Act, rom: Rom, k: Model, x: Inputs)
    requires Inv(m) && ValidRom(rom) && ValidInputs(x)
    ensures var left := CyclesLeft(Cycle(m, rom, k, x).ctl);
            if m.ctl.inst == Normal then left <= 1024 else left == CyclesLeft(m.ctl) - 1
  {
    hide CycleOn, CyclesLeft, Inv;
    InstructionsEnd(m, Fetch(m, rom, k), k, x);
  }

  // ---------- the processor ----------

  class Chip {
    var pc: nat
    var inst: InstState
    var delRomFlag: bool
    var delRom: nat
    var sp: nat
    const stack: array<nat>
    var bank: nat
    var carry: bool
    var prevCarry: bool
    var p: nat
    const pChange: array<int>
    const s: array<bool>
    var crc: Bits
    var prevPc: nat
    const opFcn: array<Op>

    predicate Shaped() {
      stack.Length == 2 && pChange.Length == 3 && s.Length == 16 && opFcn.Length == 1024
    }

    /** A chip after power on and reset, with its table of operations built. */
    constructor ()
      ensures Shaped() && Now() == PowerOn() && Inv(Now())
      ensures forall o :: 0 <= o < 1024 ==> opFcn[o] == Decode(o)
      ensures fresh(stack) && fresh(pChange) && fresh(s) && fresh(opFcn)
    {
      stack, pChange := new nat[2](_ => 0), new int[3](_ => 0);
      s, opFcn := new bool[16](_ => false), new Op[1024](_ => BadOp);
      pc, inst, delRomFlag, delRom, sp, bank := 0, Normal, false, 0, 0, 0;
      carry, prevCarry, p, crc, prevPc := false, false, 0, 0, 0;
      new;
      hide Decode;
      InitOps(opFcn);
      assert s[..] == AllClear() && stack[..] == [0, 0] && pChange[..] == [0, 0, 0];
    }

    function Ctl(): Control
      reads this, stack
    {
      Control(pc, inst, delRomFlag, delRom, Circular(sp, stack[..]), bank)
    }

    function Fl(): Flags
      reads this, pChange, s
    {
      Flags(carry, prevCarry, p, pChange[..], s[..])
    }

    function Now(): Act
      reads this, stack, pChange, s
    {
      Act(Ctl(), Fl(), crc, prevPc)
    }

    method OpJsb(o: nat)
      requires Shaped() && Proper(Ctl().calls)
      modifies this`pc, this`sp, stack
      ensures Ctl() == old(Ctl()).(calls := ReturnStacks.Jsb(old(Ctl()).calls, old(pc)), pc := InPage(old(pc), o / 4))
    {
      stack[sp] := pc;
      sp := sp + 1;
      if sp >= 2 {
        sp := 0;
      }
      pc := pc / 256 * 256 + o / 4;
    }

    method OpReturn()
      requires Shaped() && Proper(Ctl().calls)
      modifies this`pc, this`sp
      ensures Ctl() == Returned(old(Ctl()))
    {
      if sp == 0 {
        sp := 1;
      } else {
        sp := sp - 1;
      }
      pc := stack[sp];
    }

    /** The operations that leave the order of words. */
    method OpBranch(op: Op, o: nat, x: Inputs)
      requires Shaped() && Proper(Ctl().calls) && bank < 2
      requires op in {Goto, Jsb, ReturnOp, SelRom, KeysToRom, AToRom}
      modifies this`pc, this`sp, stack
      ensures Ctl() == ControlOp(old(Ctl()), op, o, prevCarry, x)
    {
      hide Compares;
      match op
      case Goto =>
        if !prevCarry {
          pc := pc / 256 * 256 + o / 4;
        }
      case Jsb => OpJsb(o);
      case ReturnOp => OpReturn();
      case SelRom => pc := o / 64 * 256 + pc % 256;
      case KeysToRom =>
        pc := pc / 256 * 256;
        if x.keyCode >= 0 {
          pc := pc + x.keyCode;
        }
      case AToRom =>
        pc := pc / 256 * 256;
        pc := pc + x.digits;
    }

    /** The operations that change bank, delayed select or instruction state. */
    method OpState(op: Op, o: nat, x: Inputs)
      requires Shaped() && Proper(Ctl().calls) && bank < 2
      requires op !in {Goto, Jsb, ReturnOp, SelRom, KeysToRom, AToRom}
      modifies this`pc, this`inst, this`delRom, this`delRomFlag, this`bank, this`crc
      ensures Ctl() == ControlOp(old(Ctl()), op, o, prevCarry, x) && crc == if op == RomSelftest then SEED else old(crc)
    {
      if op == DelSelRom {
        delRom := o / 64;
        delRomFlag := true;
      } else if op == BankSwitch {
        bank := 1 - bank;
      } else if op == RomSelftest {
        crc := 0x3ff;
        inst := Selftest;
        pc := pc / 1024 * 1024;
      } else if op == TestS1 || op == TestS0 || op == TestPEq || op == TestPNe
          || (op == ArithField && 22 <= o / 32 <= 27) {
        inst := ThenGoto;
      }
    }

    method OpClearS()
      requires Shaped()
      modifies s
      ensures s[..] == Cleared(old(s[..]))
    {
      ghost var before := s[..];
      for i := 0 to 16
        invariant forall j :: 0 <= j < 16 ==> s[j] == if j < i then Cleared(before)[j] else before[j]
      {
        if i != 1 && i != 2 && i != 5 && i != 15 {
          s[i] := false;
        }
      }
    }

    method TestPointer(val: nat) returns (differs: bool)
      requires Shaped()
      ensures differs == PointerDiffers(Fl(), prevPc, val)
    {
      if val == 0 {
        if pChange[1] == 1 && pChange[2] == 1 {
          if prevPc == 3138 || prevPc == 3162 || prevPc == 2703 {
            return p != 0 && p != 1;
          }
        }
      }
      differs := p != val;
    }

    method OpTest(op: Op, o: nat)
      requires Shaped() && op in {TestS1, TestS0, TestPEq, TestPNe} && o < 1024
      modifies this`carry
      ensures forall x :: Fl() == FlagsOp(old(Fl()), op, o, prevPc, x)
    {
      var n := o / 64;
      hide PTestMap, PointerDiffers;
      match op
      case TestS1 => carry := !s[n];
      case TestS0 => carry := s[n];
      case TestPEq => carry := TestPointer(PTestMap(n));
      case TestPNe =>
        var differs := TestPointer(PTestMap(n));
        carry := !differs;
    }

    method OpPointer(op: Op, o: nat)
      requires Shaped() && op in {SetP, IncP, DecP, LoadConstant} && o < 1024
      modifies this`p, pChange
      ensures forall x :: Fl() == FlagsOp(old(Fl()), op, o, prevPc, x)
    {
      hide PSetMap;
      match op
      case SetP => p := PSetMap(o / 64);
      case IncP =>
        pChange[0] := 1;
        p := p + 1;
        if p >= 14 {
          p := 0;
        }
      case DecP =>
        pChange[0] := -1;
        if p != 0 {
          p := p - 1;
        } else {
          p := 13;
        }
      case LoadConstant =>
        if p != 0 {
          p := p - 1;
        } else {
          p := 13;
        }
    }

    /** The switch of op_arith as far as the carry is concerned: which operations take the carry that the
        digit operation leaves. */
    method OpArithCarry(o: nat, x: Inputs)
      requires Shaped() && o < 1024
      modifies this`carry
      ensures Fl() == FlagsOp(old(Fl()), ArithField, o, prevPc, x)
    {
      carry := false;
      var op := o / 32;
      if op < 9 || op == 14 || op >= 29 {
        // clear, copy, exchange, shift
      } else if o / 4 % 8 == 0 && p >= 14 {
        // The loops over the digits do nothing, and the carry stays as it was set before them.
        carry := op in {13, 15, 18, 19, 21} || op == 26 || op == 27;
      } else {
        carry := x.carryOut;
      }
    }

    method OpFlags(op: Op, o: nat, x: Inputs)
      requires Shaped() && o < 1024
      modifies this`carry, this`p, pChange, s
      ensures Fl() == FlagsOp(old(Fl()), op, o, prevPc, x)
    {
      hide PSetMap, PTestMap, PointerDiffers;
      if op in {TestS1, TestS0, TestPEq, TestPNe} {
        hide FlagsOp;
        OpTest(op, o);
      } else if op in {SetP, IncP, DecP, LoadConstant} {
        hide FlagsOp;
        OpPointer(op, o);
      } else if op == ArithField {
        hide FlagsOp;
        OpArithCarry(o, x);
      } else if op == SetS {
        s[o / 64] := true;
      } else if op == ClrS {
        s[o / 64] := false;
      } else if op == ClearS {
        OpClearS();
      }
    }

    // ---------- the self-test ----------

    /** rom_selftest_done. */
    method SelftestDone()
      requires Shaped() && Proper(Ctl().calls)
      modifies this`pc, this`sp, this`inst, s
      ensures Ctl() == Returned(old(Ctl())).(inst := Normal)
      ensures s[..] == if crc != GOOD then old(s[..])[5 := true] else old(s[..])
    {
      if crc != 0x078 {
        s[5] := true;
      }
      inst := Normal;
      OpReturn();
    }

    method SelftestWord(w: Word)
      requires Shaped() && Proper(Ctl().calls) && bank < 2
      modifies this`pc, this`sp, this`inst, this`bank, this`crc, s
      ensures Now() == Tested(old(Now()), w)
    {
      hide Update, Returned;
      crc := CrcUpdate(crc, w.bits);
      if Number(w) == 560 {
        bank := 1 - bank;
      }
      if pc % 1024 == 0 {
        SelftestDone();
      }
    }

    // ---------- one cycle ----------

    /** What happens before the word is looked at. */
    method Begin(k: Model)
      requires Shaped() && Inv(Now())
      modifies this`bank, this`prevPc, this`inst, this`prevCarry, this`carry, this`delRomFlag, this`pc, pChange
      ensures Now() == Begun(old(Now()), k)
    {
      ShiftChanges();
      LeaveBank(k);
      prevPc := pc;
      if inst == ThenGoto {
        inst := Normal;
      }
      prevCarry := carry;
      carry := false;
      delRomFlag := false;
      pc := (pc + 1) % 4096;
    }

    method LeaveBank(k: Model)
      modifies this`bank
      ensures bank == Bank(old(Ctl()), k)
    {
      if !k.spice && pc < 1024 && bank == 1 {
        bank := 0;
      }
    }

    method ShiftChanges()
      requires Shaped()
      modifies pChange
      ensures pChange[..] == [0, old(pChange[0]), old(pChange[1])]
    {
      pChange[2] := pChange[1];
      pChange[1] := pChange[0];
      pChange[0] := 0;
    }

    method Perform(was: InstState, w: Word, x: Inputs)
      requires Shaped() && Proper(Ctl().calls) && bank < 2
      requires forall o :: 0 <= o < 1024 ==> opFcn[o] == Decode(o)
      modifies this`pc, this`inst, this`delRom, this`delRomFlag, this`bank, this`crc, this`sp, this`carry, this`p,
          stack, pChange, s
      ensures Now() == Performed(old(Now()), was, w, x)
    {
      hide Decode, Number, ControlOp, FlagsOp, Tested;
      match was
      case Normal => PerformOp(opFcn[Number(w)], Number(w), x);
      case ThenGoto =>
        if !prevCarry {
          pc := pc / 1024 * 1024 + Number(w);
        }
      case Selftest => SelftestWord(w);
    }

    method PerformOp(op: Op, o: nat, x: Inputs)
      requires Shaped() && Proper(Ctl().calls) && bank < 2 && o < 1024
      modifies this`pc, this`inst, this`delRom, this`delRomFlag, this`bank, this`crc, this`sp, this`carry, this`p,
          stack, pChange, s
      ensures Ctl() == ControlOp(old(Ctl()), op, o, prevCarry, x) && Fl() == FlagsOp(old(Fl()), op, o, prevPc, x)
      ensures crc == if op == RomSelftest then SEED else old(crc)
    {
      hide ControlOp, FlagsOp;
      if op in {Goto, Jsb, ReturnOp, SelRom, KeysToRom, AToRom} {
        OpBranch(op, o, x);
      } else {
        OpState(op, o, x);
      }
      OpFlags(op, o, x);
    }

    method Poll(k: Model, x: Inputs)
      requires Shaped()
      modifies s
      ensures s[..] == Polled(old(s[..]), x, k.spice)
    {
      if !k.spice {
        if !(x.f1 || (s[0] && x.f1IfS0)) {
          s[5] := true;
        }
      }
      if x.f2 || (s[0] && x.f2IfS0) {
        s[3] := true;
      }
      if x.key {
        s[15] := true;
      }
    }

    /** woodstock_execute_cycle. */
    method ExecuteCycle(rom: Rom, k: Model, x: Inputs)
      requires Shaped() && Inv(Now()) && ValidRom(rom) && ValidInputs(x)
      requires forall o :: 0 <= o < 1024 ==> opFcn[o] == Decode(o)
      modifies this, stack, pChange, s
      ensures Now() == Cycle(old(Now()), rom, k, x)
      ensures Inv(Now())
    {
      CycleKeepsInv(Now(), Fetch(Now(), rom, k), k, x);
      hide Performed, Decode, Number, Polled, FetchBank;
      ghost var before := Now();
      var w := GetUcode(rom, k);
      var was, select, page := inst, delRomFlag, delRom;
      Begin(k);
      ghost var b := Now();
      Perform(was, w, x);
      ghost var t := Now();
      if select {
        pc := page * 256 + pc % 256;
      }
      assert Now() == t.(ctl := Selected(before.ctl, t.ctl));
      Poll(k, x);
    }

    /** woodstock_get_ucode, after an implicit return to bank 0. */
    method GetUcode(rom: Rom, k: Model) returns (w: Word)
      requires Shaped() && Inv(Now()) && ValidRom(rom)
      ensures w == Fetch(Now(), rom, k)
    {
      var selected := bank;
      if !k.spice && pc < 1024 && bank == 1 {
        selected := 0;
      }
      if k.bankFromS0 {
        selected := if s[0] then 1 else 0;
      }
      if selected !in rom.banks[pc / 1024] {
        selected := 0;
      }
      w := rom.words[selected][pc];
    }

    /** woodstock_execute_instruction: cycles up to the end of an instruction, at most 1025 of them. */
    method ExecuteInstruction(rom: Rom, k: Model, xs: seq<Inputs>) returns (n: nat)
      requires Shaped() && Inv(Now()) && ValidRom(rom) && (forall x :: x in xs ==> ValidInputs(x)) && |xs| >= 1025
      requires forall o :: 0 <= o < 1024 ==> opFcn[o] == Decode(o)
      modifies this, stack, pChange, s
      ensures 1 <= n <= 1025 && Now() == Run(old(Now()), rom, k, xs[..n]) && inst == Normal
    {
      hide Cycle, CycleOn, Inv, Decode;
      ghost var m := Now();
      n := 0;
      var more := true;
      while more
        invariant n <= 1025 && (n == 0 ==> more) && (!more ==> inst == Normal)
        invariant Inv(Now()) && Now() == Run(m, rom, k, xs[..n])
        invariant n > 0 && more ==> inst != Normal && CyclesLeft(Ctl()) <= 1025 - n
        decreases if more then 1 else 0, 1025 - n
      {
        ghost var before := Now();
        if n > 0 {
          AtLeastOne(before.ctl);
        }
        ExecuteCycle(rom, k, xs[n]);
        CycleEnds(before, rom, k, xs[n]);
        assert xs[..n + 1][..n] == xs[..n];
        n := n + 1;
        more := inst != Normal;
      }
    }
  }

  // ---------- the disassembler ----------

  /** Every type of word sets the flow anew. */
  lemma FlowForgotten(d: Dis, op1: nat)
    requires op1 < 1024
    ensures DisType(d.(flow := NoBranch), op1) == DisType(d, op1)
  {
    hide MiscInfo;
  }

  class Disassembler {
    var addr: nat
    var inst: InstState
    var clear: bool
    var mask: nat
    var sel: nat
    var flow: Flow
    var target: nat

    function Now(): Dis
      reads this
    {
      Dis(addr, inst, clear, mask, sel, flow, target)
    }

    /** disassemble_misc. */
    method DisassembleMisc(op1: nat) returns (newMask: nat, newSel: nat)
      requires op1 < 1024
      modifies this`flow, this`target
      ensures Now().(mask := newMask, sel := newSel) == DisMisc(old(Now()), op1)
    {
      newMask, newSel := 0, 0;
      var inst, arg := op1 / 4 % 16, op1 / 64;
      if inst == 4 {
        flow := MISC_20[arg];
      } else if inst == 12 {
        flow := MISC_60[arg];
      } else {
        match MISC[inst]
        case Plain(f) => flow := f;
        case Select =>
          flow := UncondBranch;
          target := arg * 256 + addr % 256;
        case Delayed =>
          flow := NoBranch;
          newMask := SELECT_MASK;
          newSel := arg * 256;
      }
    }

    /** disassemble_jsb and disassemble_nc_goto, which share the page of the next word. */
    method DisassembleBranch(op1: nat)
      requires op1 % 4 == 1 || op1 % 4 == 3
      modifies this`flow, this`target
      ensures target == InPage(addr, op1 / 4)
      ensures flow == if op1 % 4 == 1 then SubroutineCall else if clear then UncondBranch else CondBranch
    {
      if op1 % 4 == 1 {
        flow := SubroutineCall;
      } else if clear {
        flow := UncondBranch;
      } else {
        flow := CondBranch;
      }
      target := addr / 256 * 256 + op1 / 4;
    }

    /** The four types of word outside the second word of a test. */
    method DisassembleType(op1: nat) returns (newClear: bool, newMask: nat, newSel: nat)
      requires op1 < 1024
      modifies this`flow, this`target
      ensures Now().(mask := newMask, sel := newSel) == DisType(old(Now()).(flow := NoBranch), op1)
      ensures newClear == LeavesCarryClear(op1)
    {
      hide MiscInfo, CanSetCarry;
      newClear, newMask, newSel := true, 0, 0;
      flow := NoBranch;
      if op1 % 4 == 0 {
        newMask, newSel := DisassembleMisc(op1);
      } else if op1 % 4 == 2 {
        newClear := !CanSetCarry(op1 / 32);
      } else {
        DisassembleBranch(op1);
      }
    }

    /** woodstock_disassemble, once the word is read. */
    method Disassemble(op1: nat)
      requires op1 < 1024
      modifies this
      ensures Now() == Disassembled(old(Now()), op1)
    {
      addr := (addr + 1) % 4096;
      FlowForgotten(Now(), op1);
      hide TwoWord, Masked, LeavesCarryClear, DisMisc;
      var newClear, newMask, newSel := true, 0, 0;
      if inst == ThenGoto {
        flow := CondBranch;
        target := addr / 1024 * 1024 + op1;
        inst := Normal;
      } else {
        newClear, newMask, newSel := DisassembleType(op1);
        if TwoWord(op1) {
          inst := ThenGoto;
        }
        if mask != 0 {
          if flow == NoBranch {
            flow := UncondBranch;
          }
          target := Masked(target, mask, sel);
        }
      }
      clear, mask, sel := newClear, newMask, newSel;
    }
  }
}
