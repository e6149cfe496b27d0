/** The Woodstock disassembler of src/dis_woodstock.c, without its text: addresses, instruction state, flow
    and what it knows about the carry; and its agreement with the interpreter. */
module WoodstockDis {
  import opened ReturnStacks
  import opened WoodstockSpec

  datatype Flow = NoBranch | CondBranch | UncondBranch | KeycodeBranch | ComputedBranch
                | SubroutineCall | SubroutineReturn | BankChange

  /** The variables woodstock_disassemble keeps from word to word. The target is left as it was by
      instructions that have none. */
  datatype Dis = Dis(addr: nat, inst: InstState, clear: bool, mask: nat, sel: nat, flow: Flow, target: nat)

  /** The masks that occur: none, the four ROM select bits, or the lower three of them. */
  const SELECT_MASK: nat := 3840
  const SHORT_MASK: nat := 1792

  /** The target with the bits of the mask taken from the selection instead. */
  function Masked(target: nat, mask: nat, sel: nat): nat {
    if mask == SELECT_MASK then target / 4096 * 4096 + sel / 256 % 16 * 256 + target % 256
    else if mask == SHORT_MASK then target / 2048 * 2048 + sel / 256 % 8 * 256 + target % 256
    else target
  }

  // ---------- tables ----------

  /** arith_info: which operations can set the carry, and which begin a two-word conditional branch. */
  const CAN_SET_CARRY: seq<bool> :=
    [false, false, false, false, false, false, false, false, false, true, true, true, true, true, false, true,
     true, true, true, true, true, true, false, false, false, false, false, false, true, false, false, false]
  const COND_BRANCH: seq<bool> :=
    [false, false, false, false, false, false, false, false, false, false, false, false, false, false, false, false,
     false, false, false, false, false, false, true, true, true, true, true, true, false, false, false, false]

  /** The flow of the sixteen kinds of miscellaneous instruction, without the two that have subtables of
      several flows. */
  datatype MiscFlow = Plain(flow: Flow) | Select | Delayed

  const MISC: seq<MiscFlow> :=
    [Plain(NoBranch), Plain(NoBranch), Plain(NoBranch), Plain(NoBranch), Plain(NoBranch), Plain(CondBranch),
        Plain(NoBranch),
     Plain(CondBranch), Select, Plain(CondBranch), Plain(NoBranch), Plain(CondBranch), Plain(NoBranch), Delayed,
     Plain(NoBranch), Plain(NoBranch)]
  const MISC_20: seq<Flow> :=
    [KeycodeBranch, NoBranch, ComputedBranch, NoBranch, NoBranch, NoBranch, NoBranch, NoBranch, SubroutineReturn,
        NoBranch,
     NoBranch, NoBranch, NoBranch, NoBranch, NoBranch, NoBranch]
  const MISC_60: seq<Flow> :=
    [NoBranch, NoBranch, NoBranch, NoBranch, NoBranch, NoBranch, NoBranch, NoBranch, BankChange, NoBranch,
     NoBranch, NoBranch, SubroutineReturn, NoBranch, NoBranch, NoBranch]

  predicate CanSetCarry(op: nat)
    requires op < 32
  {
    CAN_SET_CARRY[op]
  }

  predicate IsComparison(op: nat)
    requires op < 32
  {
    COND_BRANCH[op]
  }

  /** two_word_inst. */
  predicate TwoWord(op1: nat)
    requires op1 < 1024
  {
    if op1 % 2 == 1 then false
    else if op1 / 2 % 2 == 1 then IsComparison(op1 / 32)
    else
      var misc := op1 % 64;
      misc / 4 % 2 == 1 && misc >= 20 && misc <= 44
  }

  function MiscInfo(op1: nat): MiscFlow
    requires op1 < 1024
  {
    var inst := op1 / 4 % 16;
    if inst == 4 then Plain(MISC_20[op1 / 64]) else if inst == 12 then Plain(MISC_60[op1 / 64]) else MISC[inst]
  }

  // ---------- one word ----------

  function DisMisc(d: Dis, op1: nat): Dis
    requires op1 < 1024
  {
    match MiscInfo(op1)
    case Plain(flow) => d.(flow := flow, mask := 0, sel := 0)
    case Select => d.(flow := UncondBranch, target := op1 / 64 * 256 + d.addr % 256, mask := 0, sel := 0)
    case Delayed => d.(flow := NoBranch, mask := SELECT_MASK, sel := op1 / 64 * 256)
  }

  /** The four types of word; the result holds the new mask and selection. */
  function DisType(d: Dis, op1: nat): Dis
    requires op1 < 1024
  {
    match op1 % 4
    case 1 => d.(flow := SubroutineCall, target := InPage(d.addr, op1 / 4), mask := 0, sel := 0)
    case 2 => d.(flow := NoBranch, mask := 0, sel := 0)
    case 3 => d.(flow := if d.clear then UncondBranch else CondBranch, target := InPage(d.addr, op1 / 4), mask := 0,
        sel := 0)
    case _ => DisMisc(d, op1)
  }

  /** Whether the carry is known to be clear after a word. */
  predicate LeavesCarryClear(op1: nat)
    requires op1 < 1024
  {
    op1 % 4 == 2 ==> !CanSetCarry(op1 / 32)
  }

  /** A pending selection makes any instruction a branch and overrides its target. */
  function Overridden(before: Dis, d: Dis): Dis {
    if before.mask == 0 then d
    else d.(flow := if d.flow
        == NoBranch then UncondBranch else d.flow, target := Masked(d.target, before.mask, before.sel))
  }

  function Disassembled(d: Dis, op1: nat): Dis
    requires op1 < 1024
  {
    var b := d.(addr := (d.addr + 1) % 4096);
    if d.inst == ThenGoto then
      b.(flow := CondBranch, target := b.addr / 1024 * 1024 + op1, inst := Normal, clear := true, mask := 0, sel := 0)
    else
      var t := DisType(b, op1).(clear := LeavesCarryClear(op1), inst := if TwoWord(op1) then ThenGoto else d.inst);
      Overridden(d, t)
  }

  // ---------- the two decoders agree ----------

  /** The disassembler stands at the word the interpreter is about to execute, in the same state. */
  predicate Follows(d: Dis, c: Control) {
    && d.addr == c.pc && d.inst == c.inst && c.inst != Selftest
    && d.mask == (if c.delRomFlag then SELECT_MASK else 0) && (c.delRomFlag ==> d.sel == c.delRom * 256)
  }

  lemma ArithTables(op: nat)
    requires op < 32
    ensures CanSetCarry(op) <==> Carries(op)
    ensures IsComparison(op) <==> Compares(op)
  {
  }

  lemma MiscTests(hi: nat, lo: nat)
    requires hi < 16 && lo < 64 && lo % 4 == 0
    ensures lo / 4 % 2 == 1 && 20 <= lo <= 44 <==> lo == 20 || lo == 28 || lo == 36 || lo == 44
    ensures lo == 20 || lo == 28 || lo == 36 || lo == 44 <==> Tests(DecodeMisc(hi, lo), 0)
  {
  }

  /** The bit fields of a word of the miscellaneous type. */
  lemma Columns(op1: nat)
    requires op1 < 1024 && op1 % 4 == 0
    ensures op1 / 64 < 16 && op1 % 64 % 4 == 0 && op1 / 4 % 16 == op1 % 64 / 4
    ensures op1 % 2 == 0 && op1 / 2 % 2 == 0
  {
  }

  lemma MiscTwoWord(op1: nat)
    requires op1 < 1024 && op1 % 4 == 0
    ensures TwoWord(op1) <==> Tests(Decode(op1), op1)
  {
    var hi, lo := op1 / 64, op1 % 64;
    Columns(op1);
    MiscTests(hi, lo);
    MiscOps(hi, lo);
    hide DecodeMisc, IsComparison, Compares;
    assert Decode(op1) == DecodeMisc(hi, lo);
    hide Decode;
    assert TwoWord(op1) <==> lo / 4 % 2 == 1 && 20 <= lo <= 44;
    hide TwoWord;
  }

  /** The disassembler's table of two-word instructions is the interpreter's. */
  lemma TwoWordIffTests(op1: nat)
    requires op1 < 1024
    ensures TwoWord(op1) <==> Tests(Decode(op1), op1)
  {
    if op1 % 4 == 0 {
      MiscTwoWord(op1);
    } else {
      ArithTables(op1 / 32);
      hide DecodeMisc, IsComparison, Compares;
    }
  }

  /** Only words of the arithmetic type are arithmetic, and only words of the branch types branch. */
  lemma MiscOps(hi: nat, lo: nat)
    ensures DecodeMisc(hi, lo) !in {ArithField, Jsb, Goto}
  {
  }

  // ---------- the two decoders agree ----------

  /** Whether the word about to be executed moves the program counter to a target the disassembler names. */
  predicate Jumps(m: Act, o: nat) {
    || (m.ctl.inst == ThenGoto && !m.fl.carry)
    || (m.ctl.inst == Normal && (Decode(o) == Jsb || Decode(o) == SelRom || (Decode(o) == Goto && !m.fl.carry)))
  }

  /** Whether it moves the program counter somewhere that depends on data or on the return stack. */
  predicate Departs(m: Act, o: nat) {
    m.ctl.inst == Normal && Decode(o) in {ReturnOp, KeysToRom, AToRom, RomSelftest}
  }

  /** The disassembler's misc table has a target only for the ROM select, and delays only the delayed one. */
  lemma MiscAgrees(op1: nat)
    requires op1 < 1024 && op1 % 4 == 0
    ensures MiscInfo(op1) == Select <==> Decode(op1) == SelRom
    ensures MiscInfo(op1) == Delayed <==> Decode(op1) == DelSelRom
    ensures Decode(op1) !in {ArithField, Jsb, Goto}
  {
    var hi, lo := op1 / 64, op1 % 64;
    Columns(op1);
    MiscOps(hi, lo);
    MiscSelects(hi, lo);
    hide DecodeMisc;
  }

  lemma MiscSelects(hi: nat, lo: nat)
    requires lo < 64 && lo % 4 == 0
    ensures DecodeMisc(hi, lo) == SelRom <==> lo / 4 == 8
    ensures DecodeMisc(hi, lo) == DelSelRom <==> lo / 4 == 13
  {
  }

  /** A word taken by both: what the disassembler says of a word in the normal state, before a pending
      selection, against what the interpreter does with it. */
  lemma TypesAgree(d: Dis, c: Control, op1: nat, prevCarry: bool, x: Inputs)
    requires op1 < 1024 && d.addr == c.pc && c.pc < 4096 && Proper(c.calls) && c.bank < 2 && !c.delRomFlag
    requires c.inst == Normal
    ensures var e, t := DisType(d, op1), ControlOp(c, Decode(op1), op1, prevCarry, x);
            && e.addr == d.addr
            && e.mask == (if t.delRomFlag then SELECT_MASK else 0) && (t.delRomFlag ==> e.sel == t.delRom * 256)
            && (Decode(op1) == Jsb || Decode(op1) == SelRom ==> e.target == t.pc)
            && (Decode(op1) == Goto ==> if prevCarry then t.pc == c.pc else e.target == t.pc)
            && (Decode(op1) !in {Jsb, SelRom, Goto, ReturnOp, KeysToRom, AToRom, RomSelftest} ==> t.pc == c.pc)
            && (t.inst == ThenGoto <==> TwoWord(op1)) && (t.inst == Selftest <==> Decode(op1) == RomSelftest)
  {
    TwoWordIffTests(op1);
    hide TwoWord, DecodeMisc, InPage;
    if op1 % 4 == 0 {
      MiscAgrees(op1);
      hide MiscInfo, Decode;
    }
  }

  lemma SelectedTarget(target: nat, delRom: nat)
    requires target < 4096 && delRom < 16
    ensures Masked(target, SELECT_MASK, delRom * 256) == delRom * 256 + target % 256
  {
  }

  /** In the normal state: the new control state and the disassembler's, the pending selects applied. */
  lemma NormalStep(d: Dis, before: Control, c: Control, o: nat, prevCarry: bool, x: Inputs)
    requires o < 1024 && ValidInputs(x) && ControlInRange(c) && !c.delRomFlag && c.inst == Normal
    requires before.delRom < 16 && d.addr == c.pc
    requires d.mask == (if before.delRomFlag then SELECT_MASK else 0)
    requires (before.delRomFlag ==> d.sel == before.delRom * 256)
    ensures var e, t := Overridden(d, DisType(d, o)), Selected(before, ControlOp(c, Decode(o), o, prevCarry, x));
            && e.addr == d.addr && e.mask == (if t.delRomFlag then SELECT_MASK else 0)
                && (t.delRomFlag ==> e.sel == t.delRom * 256)
            && (Decode(o) == Jsb || Decode(o) == SelRom || (Decode(o) == Goto && !prevCarry) ==> e.target == t.pc)
            && (Decode(o) !in {Jsb, SelRom, Goto, ReturnOp, KeysToRom, AToRom, RomSelftest}
                || (Decode(o) == Goto && prevCarry)
                ==> before.delRomFlag || t.pc == c.pc)
            && (t.inst == ThenGoto <==> TwoWord(o)) && (t.inst == Selftest <==> Decode(o) == RomSelftest)
  {
    TypesAgree(d, c, o, prevCarry, x);
    ControlKept(c, Decode(o), o, prevCarry, x);
    SelectedTarget(ControlOp(c, Decode(o), o, prevCarry, x).pc, before.delRom);
    hide DisType, ControlOp, Masked, Decode, TwoWord;
  }

  /** The agreement on one word, as `DecodersAgree` states it. */
  predicate Agree(m: Act, o: nat, e: Dis, t: Control) {
    && (Jumps(m, o) ==> t.pc == e.target)
    && (!Jumps(m, o) && !Departs(m, o) && !m.ctl.delRomFlag ==> t.pc == e.addr)
    && (t.inst == ThenGoto <==> m.ctl.inst == Normal && o < 1024 && TwoWord(o))
    && (t.inst != Selftest ==> Follows(e.(addr := t.pc), t))
  }

  lemma NormalAgrees(m: Act, w: Word, k: Model, x: Inputs, d: Dis)
    requires Inv(m) && ValidInputs(x) && Follows(d, m.ctl) && m.ctl.inst == Normal
    ensures Agree(m, Number(w), Disassembled(d, Number(w)), CycleOn(m, w, k, x).ctl)
  {
    hide Number, TwoWord, DisType, ControlOp, Overridden, Selected, Decode, Inv, CycleOn, FlagsOp, Disassembled;
    var o, b := Number(w), Begun(m, k);
    BegunInRange(m, k);
    NormalCycle(m, w, k, x);
    NormalStep(d.(addr := b.ctl.pc), m.ctl, b.ctl, o, m.fl.carry, x);
    SameOverride(d, b.ctl.pc, o);
  }

  lemma ThenAgrees(m: Act, w: Word, k: Model, x: Inputs, d: Dis)
    requires Inv(m) && ValidInputs(x) && Follows(d, m.ctl) && m.ctl.inst == ThenGoto
    ensures Agree(m, Number(w), Disassembled(d, Number(w)), CycleOn(m, w, k, x).ctl)
  {
    hide Number, Polled, TwoWord, DisType, FlagsOp, ControlOp, Decode;
  }

  /** Cycle by cycle the two decoders stay in step. A taken jump goes where the disassembler says, a pending
      ROM select included; without jump, departure or pending select the interpreter goes on at the
      disassembler's next address; the interpreter enters the state between the two words of a test exactly
      where the disassembler does; and the disassembler's new state is the interpreter's. */
  lemma DecodersAgree(m: Act, w: Word, k: Model, x: Inputs, d: Dis)
    requires Inv(m) && ValidInputs(x) && Follows(d, m.ctl)
    ensures var e, t := Disassembled(d, Number(w)), CycleOn(m, w, k, x);
            && (Jumps(m, Number(w)) ==> t.ctl.pc == e.target)
            && (!Jumps(m, Number(w)) && !Departs(m, Number(w)) && !m.ctl.delRomFlag ==> t.ctl.pc == e.addr)
            && (t.ctl.inst == ThenGoto <==> m.ctl.inst == Normal && TwoWord(Number(w)))
            && (t.ctl.inst != Selftest ==> Follows(e.(addr := t.ctl.pc), t.ctl))
  {
    if m.ctl.inst == Normal {
      NormalAgrees(m, w, k, x, d);
    } else {
      ThenAgrees(m, w, k, x, d);
    }
    hide *;
  }

  lemma BegunInRange(m: Act, k: Model)
    requires Inv(m)
    ensures var c := Begun(m, k).ctl;
            ControlInRange(c) && !c.delRomFlag && (m.ctl.inst == Normal ==> c.inst == Normal)
                && c.pc == (m.ctl.pc + 1) % 4096
            && Begun(m, k).fl.prevCarry == m.fl.carry && m.ctl.delRom < 16
  {
  }

  /** What a word in the normal state does, in terms of the word alone. */
  lemma SameOverride(d: Dis, next: nat, o: nat)
    requires o < 1024 && d.inst == Normal && next == (d.addr + 1) % 4096
    ensures var e, t := Disassembled(d, o), Overridden(d.(addr := next), DisType(d.(addr := next), o));
            && e.target == t.target && e.addr == t.addr && e.mask == t.mask && e.sel == t.sel
            && e.inst == (if TwoWord(o) then ThenGoto else Normal)
  {
    hide TwoWord, LeavesCarryClear, MiscInfo, Masked, InPage;
  }

  /** The trace printer passes a mask of three bits for the four-bit ROM number: the target it shows for a
      jump after a delayed select is right exactly when the jump would have stayed in the half of memory
      that the select names. */
  lemma TraceTargetIff(target: nat, delRom: nat)
    requires target < 4096 && delRom < 16
    ensures Masked(target, SHORT_MASK, delRom * 256) == Masked(target, SELECT_MASK, delRom * 256)
            <==> delRom / 8 == target / 2048
  {
  }
}
