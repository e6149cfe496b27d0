/** Branches, calls and returns of the Nut processor as its assembler, src/nasm_y.y, writes them, and what
    well-bracketed stretches of a program do to the return stack. */
module NutCalls {
  import opened ReturnStacks
  import opened NutSpec
  import opened NutDis

  // ---------- branches as written ----------

  /** goto, taken on the carry or without it, over a distance that seven bits hold. */
  function ShortGoto(distance: int, onCarry: bool): (o: nat)
    requires -64 <= distance <= 63
    ensures o < 1024
  {
    distance % 128 * 8 + (if onCarry then 4 else 0) + 3
  }

  function LongFirst(target: nat): (o: nat)
    requires target < 65536
    ensures o < 1024
  {
    target % 256 * 4 + 1
  }

  /** The second word of golong, and of gosub. */
  function LongSecond(target: nat, onCarry: bool, jump: bool): (o: nat)
    requires target < 65536
    ensures o < 1024
  {
    target / 256 * 4 + (if jump then 2 else 0) + if onCarry then 1 else 0
  }

  lemma WrittenWords(distance: int, target: nat, onCarry: bool, jump: bool)
    requires -64 <= distance <= 63 && target < 65536
    ensures Decode(ShortGoto(distance, onCarry)) == ShortBranch && Offset(ShortGoto(distance, onCarry)) == distance
    ensures ShortGoto(distance, onCarry) / 4 % 2 == Bit(onCarry)
    ensures Decode(LongFirst(target)) == LongBranchOp
    ensures LongTarget(LongFirst(target), LongSecond(target, onCarry, jump)) == target
    ensures LongSecond(target, onCarry, jump) % 2 == Bit(onCarry)
    ensures LongSecond(target, onCarry, jump) / 2 % 2 == 1 <==> jump
  {
    ShortWord(distance, onCarry);
    LongWords(target, onCarry, jump);
  }

  lemma ShortWord(distance: int, onCarry: bool)
    requires -64 <= distance <= 63
    ensures Decode(ShortGoto(distance, onCarry)) == ShortBranch && Offset(ShortGoto(distance, onCarry)) == distance
    ensures ShortGoto(distance, onCarry) / 4 % 2 == Bit(onCarry)
  {
    var o, d := ShortGoto(distance, onCarry), distance % 128;
    LongBranchWords(o);
    assert o / 8 == d && o / 512 == d / 64;
    hide Decode;
  }

  lemma LongWords(target: nat, onCarry: bool, jump: bool)
    requires target < 65536
    ensures Decode(LongFirst(target)) == LongBranchOp
    ensures LongTarget(LongFirst(target), LongSecond(target, onCarry, jump)) == target
    ensures LongSecond(target, onCarry, jump) % 2 == Bit(onCarry)
    ensures LongSecond(target, onCarry, jump) / 2 % 2 == 1 <==> jump
  {
    LongBranchWords(LongFirst(target));
    hide Decode;
  }

  ghost predicate Normally(m: Nut) {
    Inv(m) && m.awake && m.inst == Normal
  }

  /** A goto comes to its target exactly when the carry is as it asks, and else goes on. */
  lemma GotoWritten(m: Nut, view: View, x: Inputs, y: Inputs, distance: int, onCarry: bool)
    requires Normally(m) && ValidInputs(x) && -64 <= distance <= 63
    requires FirstWord(m, view) == ShortGoto(distance, onCarry)
    ensures var t := Instruction(m, view, x, y);
            && t.pc == (m.pc + (if m.carry == onCarry then distance else 1)) % 65536
            && t.stack == m.stack && t.inst == Normal && t.awake && !t.carry
  {
    ShortWord(distance, onCarry);
    OtherRuns(m, view, x, y);
    hide Instruction, Decode, FirstWord, ShortGoto, Offset;
    BackAndForth(m.pc, distance);
  }

  lemma BackAndForth(pc: nat, distance: int)
    ensures ((pc + 1) % 65536 + distance - 1) % 65536 == (pc + distance) % 65536
  {
  }

  /** A golong does so too, anywhere in memory. A gosub that is taken leaves the address behind it on the stack,
      unless its target is a word of zero, from which it comes straight back. */
  lemma LongWritten(m: Nut, view: View, x: Inputs, y: Inputs, target: nat, onCarry: bool, jump: bool)
    requires Normally(m) && ValidInputs(x) && target < 65536
    requires FirstWord(m, view) == LongFirst(target) && SecondWord(m, view) == LongSecond(target, onCarry, jump)
    ensures var t, behind := Instruction(m, view, x, y), (m.pc + 2) % 65536;
            && t.inst == Normal && t.awake && !t.carry
            && (m.carry != onCarry ==> t.pc == behind && t.stack == m.stack)
            && (m.carry == onCarry && jump ==> t.pc == target && t.stack == m.stack)
            && (m.carry == onCarry && !jump ==>
                  if view[target] != 0 then t.pc == target && t.stack == [behind] + m.stack[..3]
                  else t.pc == behind && t.stack == m.stack[..3] + [0])
  {
    LongWords(target, onCarry, jump);
    LongBranchRuns(m, view, x, y);
    hide Instruction, Decode, FirstWord, SecondWord, LongFirst, LongSecond, LongTarget;
  }

  // ---------- returns and the stack as written ----------

  const RTN := 0x3e0
  const RTN_ON_CARRY := 0x360
  const RTN_ON_NO_CARRY := 0x3a0
  const POP_STACK := 0x020
  const STACK_TO_C := 0x1b0
  const C_TO_STACK := 0x170
  const POWER_OFF := 0x060
  const LOAD_IMMEDIATE := 0x130
  const READ_ROM := 0x330
  const GOTO_C := 0x1e0
  const KEYS_TO_PAGE := 0x230

  lemma StackWords()
    ensures Decode(RTN) == ReturnOp && Decode(RTN_ON_CARRY) == ReturnIfCarry && Decode(POWER_OFF) == PowerOff
    ensures Decode(RTN_ON_NO_CARRY) == ReturnIfNoCarry && Decode(POP_STACK) == PopOp && Decode(STACK_TO_C) == PopC
    ensures Decode(C_TO_STACK) == PushC && Decode(LOAD_IMMEDIATE) == LoadImmediate && Decode(READ_ROM) == RomToC
    ensures Decode(GOTO_C) == GotoC && Decode(KEYS_TO_PAGE) == KeysToRom
  {
  }

  /** A return that is carried out: always, or on the carry, or without it. */
  ghost predicate TakesReturn(m: Nut, view: View)
    requires Inv(m)
  {
    m.awake && m.inst == Normal
    && var op := Decode(FirstWord(m, view));
    op == ReturnOp || (op == ReturnIfCarry && m.carry) || (op == ReturnIfNoCarry && !m.carry)
  }

  /** A gosub that is carried out and does not come straight back. */
  ghost predicate TakesCall(m: Nut, view: View)
    requires Inv(m)
  {
    m.awake && m.inst == Normal
    && var o1, o2 := FirstWord(m, view), SecondWord(m, view);
    && Decode(o1) == LongBranchOp && o2 % 2 == Bit(m.carry) && o2 / 2 % 2 == 0
    && view[LongTarget(o1, o2)] != 0
  }

  /** An instruction that has nothing to do with the stack. */
  ghost predicate LeavesStack(m: Nut, view: View)
    requires Inv(m)
  {
    m.awake
    && (m.inst == Selpf
        || (m.inst == Normal && !TakesReturn(m, view)
            && var o1, o2 := FirstWord(m, view), SecondWord(m, view);
            if Decode(o1) == LongBranchOp then o2 % 2 != Bit(m.carry) || o2 / 2 % 2 == 1
            else Decode(o1) != PushC && Decode(o1) != PopC && Decode(o1) != PopOp))
  }

  /** A return takes the first entry, and all the others move up. */
  lemma ReturnTaken(m: Nut, view: View, x: Inputs, y: Inputs)
    requires Inv(m) && ValidInputs(x) && TakesReturn(m, view)
    ensures var t := Instruction(m, view, x, y);
            t.pc == m.stack[0] && t.stack == m.stack[1..] + [0] && t.awake && t.inst == Normal && !t.carry
  {
    OtherRuns(m, view, x, y);
    hide Instruction, Decode, FirstWord;
  }

  lemma CallTaken(m: Nut, view: View, x: Inputs, y: Inputs)
    requires Inv(m) && ValidInputs(x) && TakesCall(m, view)
    ensures var t := Instruction(m, view, x, y);
            && t.pc == LongTarget(FirstWord(m, view), SecondWord(m, view)) && t.awake && t.inst == Normal
            && t.stack == [(m.pc + 2) % 65536] + m.stack[..3]
  {
    LongBranchRuns(m, view, x, y);
    hide Instruction, Decode, FirstWord, SecondWord, LongTarget;
  }

  lemma StackLeft(m: Nut, view: View, x: Inputs, y: Inputs)
    requires Inv(m) && ValidInputs(x) && LeavesStack(m, view)
    ensures Instruction(m, view, x, y).stack == m.stack
  {
    if m.inst == Normal && Decode(FirstWord(m, view)) == LongBranchOp {
      LongBranchRuns(m, view, x, y);
    } else if m.inst == Normal {
      OtherRuns(m, view, x, y);
    }
    hide Decode, FirstWord, SecondWord, LongTarget, Offset;
  }

  /** The stack and register c: an address pushed is the next one returned to, popping drops the first entry,
      and a jump goes to the address in the register. */
  lemma StackOperations(m: Nut, view: View, x: Inputs, y: Inputs)
    requires Normally(m) && ValidInputs(x)
    ensures var o, t := FirstWord(m, view), Instruction(m, view, x, y);
            && (o == C_TO_STACK ==> t.stack == [x.address] + m.stack[..3] && t.pc == (m.pc + 1) % 65536 && t.awake)
            && (o == STACK_TO_C || o == POP_STACK
                ==> t.stack == m.stack[1..] + [0] && t.pc == (m.pc + 1) % 65536 && t.awake)
            && (o == POWER_OFF ==> t.stack == m.stack && t.pc == 0 && !t.awake)
            && (o == GOTO_C ==> t.stack == m.stack && t.pc == x.address && t.awake)
            && (o == KEYS_TO_PAGE ==> t.stack == m.stack && t.pc == (m.pc + 1) % 65536 / 256 * 256 + x.keyCode)
            && (o == READ_ROM || o == LOAD_IMMEDIATE ==> t.stack == m.stack && t.inst == Normal && t.awake)
            && (o == READ_ROM ==> t.pc == (m.pc + 1) % 65536 && t.cxisaAddr == x.address)
            && (o == LOAD_IMMEDIATE ==> t.pc == (m.pc + 2) % 65536)
  {
    StackWords();
    if Decode(FirstWord(m, view)) != LongBranchOp {
      OtherRuns(m, view, x, y);
    }
    hide Instruction, Decode, FirstWord, SecondWord, Offset;
  }

  /** A reset starts the processor at word 0 with the carry set and its stack kept: a goto there is taken on the
      carry, and not without it. */
  lemma ResetThenGoto(m: Nut, view: View, x: Inputs, y: Inputs, distance: int, onCarry: bool)
    requires Inv(m) && ValidInputs(x) && -64 <= distance <= 63 && view[0] == ShortGoto(distance, onCarry)
    ensures Normally(AfterReset(m))
    ensures var t := Instruction(AfterReset(m), view, x, y);
            t.pc == (if onCarry then distance % 65536 else 1) && t.stack == m.stack
  {
    GotoWritten(AfterReset(m), view, x, y, distance, onCarry);
    hide Instruction, ShortGoto;
  }

  /** The processor after power on has an empty stack. */
  lemma PowerOnStack()
    ensures Normally(PowerOn()) && PowerOn().pc == 0 && PowerOn().carry && PowerOn().stack == [0, 0, 0, 0]
  {
  }

  // ---------- well-bracketed stretches of a program ----------

  /** What a stretch of a run consists of, with the inputs of its instructions: instructions that leave the stack
      alone, and calls with what is done inside them and the return that ends them. */
  datatype Code = End | Plain(x: Inputs, y: Inputs, next: Code)
                | Called(x: Inputs, y: Inputs, body: Code, back: Inputs, next: Code)

  /** The state after such a stretch, if the words in memory make it one. */
  ghost function Exec(code: Code, m: Nut, view: View): (r: Option<Nut>)
    requires Inv(m)
    ensures r.Some? ==> Inv(r.value)
  {
    match code
    case End => Some(m)
    case Plain(x, y, next) =>
      if !ValidInputs(x) || !ValidInputs(y) || !LeavesStack(m, view) then None
      else Exec(next, After(m, view, x, y), view)
    case Called(x, y, body, back, next) =>
      if !ValidInputs(x) || !ValidInputs(y) || !ValidInputs(back) || !TakesCall(m, view) then None
      else
        var inside := Exec(body, After(m, view, x, y), view);
        if inside.None? || !TakesReturn(inside.value, view) then None
        else Exec(next, After(inside.value, view, back, back), view)
  }

  datatype Option<T> = None | Some(value: T)

  ghost function After(m: Nut, view: View, x: Inputs, y: Inputs): (t: Nut)
    requires Inv(m) && ValidInputs(x) && ValidInputs(y)
    ensures Inv(t)
  {
    InstructionKeepsInv(m, view, x, y);
    Instruction(m, view, x, y)
  }

  lemma InstructionKeepsInv(m: Nut, view: View, x: Inputs, y: Inputs)
    requires Inv(m) && ValidInputs(x) && ValidInputs(y)
    ensures Inv(Instruction(m, view, x, y))
  {
    CycleKeepsInv(m, view, x);
    CycleKeepsInv(Cycle(m, view, x), view, y);
    hide Cycle, Inv;
  }

  /** The calls of a stretch, each with the address behind its gosub. */
  ghost function CallsOf(code: Code, m: Nut, view: View): Calls
    requires Inv(m) && Exec(code, m, view).Some?
  {
    match code
    case End => Done
    case Plain(x, y, next) => CallsOf(next, After(m, view, x, y), view)
    case Called(x, y, body, back, next) =>
      var t := After(m, view, x, y);
      var u := Exec(body, t, view).value;
      Call((m.pc + 2) % 65536, CallsOf(body, t, view), CallsOf(next, After(u, view, back, back), view))
  }

  /** Every return in the stretch goes on behind the gosub of its own call. */
  ghost predicate ReturnsRight(code: Code, m: Nut, view: View)
    requires Inv(m) && Exec(code, m, view).Some?
  {
    match code
    case End => true
    case Plain(x, y, next) => ReturnsRight(next, After(m, view, x, y), view)
    case Called(x, y, body, back, next) =>
      var t := After(m, view, x, y);
      var u := Exec(body, t, view).value;
      var v := After(u, view, back, back);
      v.pc == (m.pc + 2) % 65536 && ReturnsRight(body, t, view) && ReturnsRight(next, v, view)
  }

  /** The instructions of a stretch do to the stack what the trace of its calls does, and its returns are right
      exactly when those of the trace are. */
  lemma {:induction false} StretchIsTrace(code: Code, m: Nut, view: View)
    requires Inv(m) && Exec(code, m, view).Some?
    ensures var (ok, stack) := RunShifting(CallsOf(code, m, view), m.stack);
            Exec(code, m, view).value.stack == stack && (ReturnsRight(code, m, view) <==> ok)
  {
    hide Inv, Instruction, LeavesStack, TakesCall, TakesReturn;
    match code
    case End =>
    case Plain(x, y, next) =>
      StackLeft(m, view, x, y);
      StretchIsTrace(next, After(m, view, x, y), view);
    case Called(x, y, body, back, next) =>
      var t := After(m, view, x, y);
      CallTaken(m, view, x, y);
      StretchIsTrace(body, t, view);
      var u := Exec(body, t, view).value;
      ReturnTaken(u, view, back, back);
      StretchIsTrace(next, After(u, view, back, back), view);
  }

  /** The returns of a stretch of a program are right exactly when every call inside which four more levels are
      nested is to return to word 0, so always if it is at most four levels deep; and then the entries that the
      four levels have left over are still there. */
  lemma StretchReturns(code: Code, m: Nut, view: View)
    requires Inv(m) && Exec(code, m, view).Some?
    ensures var calls, t := CallsOf(code, m, view), Exec(code, m, view).value;
            && (ReturnsRight(code, m, view) <==> OverflowsReturnToZero(calls))
            && (Depth(calls) <= 4 ==> ReturnsRight(code, m, view)
                                      && t.stack[..4 - Depth(calls)] == m.stack[..4 - Depth(calls)])
  {
    hide Inv, Exec, CallsOf, ReturnsRight, RunShifting;
    StretchIsTrace(code, m, view);
    var calls := CallsOf(code, m, view);
    ShiftingReturns(calls, m.stack);
    if Depth(calls) <= 4 {
      ShallowShiftingReturns(calls, m.stack);
    }
  }
}
