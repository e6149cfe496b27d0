/** Branches, selects, calls and returns of the Woodstock processor as its assembler writes them, and what
    well-bracketed stretches of a program do to the return stack. */
module WoodstockCalls {
  import DigitOps
  import opened ReturnStacks
  import opened WoodstockSpec
  import opened WoodstockAsm

  // ---------- branches as written ----------

  datatype Statement = JsbTo(target: nat) | GotoTo(target: nat) | SelectRom(rom: nat) | DelayedRom(rom: nat)
                     | Back | ToKeys | ToA | BankToggle | NoOperation | LoadConst(n: nat)

  predicate Writes(s: Statement) {
    match s
    case JsbTo(target) => target < 256
    case GotoTo(target) => target < 256
    case SelectRom(rom) => rom < 16
    case DelayedRom(rom) => rom < 16
    case LoadConst(n) => n < 16
    case _ => true
  }

  function WordFor(s: Statement): (o: nat)
    requires Writes(s)
    ensures o < 1024
  {
    match s
    case JsbTo(target) => 4 * target + 1
    case GotoTo(target) => 4 * target + 3
    case SelectRom(rom) => 64 * rom + 32
    case DelayedRom(rom) => 64 * rom + 52
    case Back => 528
    case ToKeys => 16
    case ToA => 144
    case BankToggle => 560
    case NoOperation => 0
    case LoadConst(n) => 64 * n + 24
  }

  lemma WordDecoded(s: Statement)
    requires Writes(s)
    ensures Decode(WordFor(s))
            == match s
               case JsbTo(_) => WoodstockSpec.Jsb
               case GotoTo(_) => Goto
               case SelectRom(_) => SelRom
               case DelayedRom(_) => DelSelRom
               case Back => ReturnOp
               case ToKeys => KeysToRom
               case ToA => AToRom
               case BankToggle => BankSwitch
               case NoOperation => Nop
               case LoadConst(_) => LoadConstant
    ensures s.JsbTo? || s.GotoTo? ==> WordFor(s) / 4 == s.target
    ensures s.SelectRom? || s.DelayedRom? ==> WordFor(s) / 64 == s.rom
  {
    hide Decode;
    if s.JsbTo? || s.GotoTo? {
      BranchColumns(s.target);
    } else if s.SelectRom? || s.DelayedRom? {
      SelectColumns(s.rom);
    } else if s.LoadConst? {
      SelectColumns(s.n);
    } else {
      SingleWords();
    }
  }

  lemma BranchColumns(target: nat)
    ensures Decode(4 * target + 1) == WoodstockSpec.Jsb && Decode(4 * target + 3) == Goto
    ensures (4 * target + 1) / 4 == target && (4 * target + 3) / 4 == target
  {
  }

  lemma SelectColumns(a: nat)
    requires a < 16
    ensures Decode(64 * a + 32) == SelRom && Decode(64 * a + 52) == DelSelRom && Decode(64 * a + 24) == LoadConstant
    ensures (64 * a + 32) / 64 == a && (64 * a + 52) / 64 == a
  {
  }

  lemma SingleWords()
    ensures Decode(528) == ReturnOp && Decode(16) == KeysToRom && Decode(144) == AToRom && Decode(560) == BankSwitch
    ensures Decode(0) == Nop
  {
  }

  /** An address, brought into the page that a pending select names. */
  function Placed(c: Control, a: nat): nat {
    if c.delRomFlag then c.delRom * 256 + a % 256 else a
  }

  /** The address behind the word, and that address in its own page. */
  function Behind(c: Control): nat {
    (c.pc + 1) % 4096
  }

  function Page(c: Control): nat {
    Behind(c) / 256 * 256
  }

  /** Where each statement goes on, and what it does to stack, select and bank. */
  predicate Carried(m: Act, t: Act, s: Statement, k: Model, x: Inputs) {
    var c, r, bank := m.ctl, t.ctl, Bank(m.ctl, k);
    && r.inst == Normal && (s.DelayedRom? || !r.delRomFlag) && (s.BankToggle? || r.bank == bank)
    && match s
       case JsbTo(target) =>
         r.pc == Placed(c, Page(c) + target) && Proper(c.calls) && r.calls == ReturnStacks.Jsb(c.calls, Behind(c))
       case GotoTo(target) =>
         r.pc == Placed(c, if m.fl.carry then Behind(c) else Page(c) + target) && r.calls == c.calls
       case SelectRom(rom) => r.pc == Placed(c, rom * 256 + Behind(c) % 256) && r.calls == c.calls
       case DelayedRom(rom) => r.pc == Placed(c, Behind(c)) && r.delRomFlag && r.delRom == rom && r.calls == c.calls
       case Back => Proper(c.calls) && (r.pc, r.calls) == (Placed(c, Return(c.calls).0), Return(c.calls).1)
       case ToKeys => r.pc == Placed(c, Page(c) + if x.keyCode < 0 then 0 else x.keyCode) && r.calls == c.calls
       case ToA => r.pc == Placed(c, Page(c) + x.digits) && r.calls == c.calls
       case BankToggle => r.pc == Placed(c, Behind(c)) && r.bank == 1 - bank && r.calls == c.calls
       case NoOperation => r.pc == Placed(c, Behind(c)) && r.calls == c.calls
       case LoadConst(_) =>
         r.pc == Placed(c, Behind(c)) && r.calls == c.calls && t.fl.p == if m.fl.p == 0 then 13 else m.fl.p - 1
  }

  /** What the operation of a statement does to control. */
  function Operated(c: Control, s: Statement, carry: bool, x: Inputs): Control
    requires Proper(c.calls) && c.bank < 2
  {
    match s
    case JsbTo(target) => c.(calls := ReturnStacks.Jsb(c.calls, c.pc), pc := InPage(c.pc, target))
    case GotoTo(target) => if carry then c else c.(pc := InPage(c.pc, target))
    case SelectRom(rom) => c.(pc := rom * 256 + c.pc % 256)
    case DelayedRom(rom) => c.(delRom := rom, delRomFlag := true)
    case Back => c.(pc := Return(c.calls).0, calls := Return(c.calls).1)
    case ToKeys => c.(pc := InPage(c.pc, if x.keyCode < 0 then 0 else x.keyCode))
    case ToA => c.(pc := InPage(c.pc, x.digits))
    case BankToggle => c.(bank := 1 - c.bank)
    case NoOperation => c
    case LoadConst(_) => c
  }

  lemma OperationOf(c: Control, s: Statement, carry: bool, x: Inputs)
    requires Proper(c.calls) && c.bank < 2 && Writes(s)
    ensures ControlOp(c, Decode(WordFor(s)), WordFor(s), carry, x) == Operated(c, s, carry, x)
  {
    hide Decode, WordFor, ReturnStacks.Jsb, Return, InPage, Proper;
    WordDecoded(s);
  }

  lemma PointerDown(f: Flags, s: Statement, prevPc: nat, x: Inputs)
    requires |f.s| == 16 && |f.pChange| == 3 && Writes(s) && !f.carry
    ensures var r := FlagsOp(f, Decode(WordFor(s)), WordFor(s), prevPc, x);
            !r.carry && (s.LoadConst? ==> r.p == if f.p == 0 then 13 else f.p - 1)
  {
    hide Decode, WordFor, ArithCarry, Cleared, PointerDiffers;
    WordDecoded(s);
  }

  /** Every branch statement does what it says, under a pending select in the page that this names. */
  lemma StatementCarried(m: Act, w: Word, k: Model, x: Inputs, s: Statement)
    requires Inv(m) && ValidInputs(x) && m.ctl.inst == Normal && Writes(s) && Number(w) == WordFor(s)
    ensures Carried(m, CycleOn(m, w, k, x), s, k, x) && !CycleOn(m, w, k, x).fl.carry
  {
    hide Decode, Number, CycleOn, WordFor, Bank, ReturnStacks.Jsb, Return, Polled, Selected, Placed, Page, Behind;
    hide ControlOp, FlagsOp, Writes, InPage;
    ControlCycle(m, w, k, x);
    FlagsCycle(m, w, k, x);
    var c := m.ctl.(bank := Bank(m.ctl, k), delRomFlag := false, pc := (m.ctl.pc + 1) % 4096);
    OperationOf(c, s, m.fl.carry, x);
    PointerDown(m.fl.(pChange := [0, m.fl.pChange[0], m.fl.pChange[1]], prevCarry := m.fl.carry, carry := false), s,
                m.ctl.pc, x);
    SelectedPlaced(m.ctl, Operated(c, s, m.fl.carry, x));
    InItsPage(m.ctl, c);
  }

  lemma SelectedPlaced(before: Control, c: Control)
    ensures Selected(before, c) == c.(pc := Placed(before, c.pc))
  {
  }

  lemma InItsPage(before: Control, c: Control)
    requires c.pc == (before.pc + 1) % 4096
    ensures c.pc == Behind(before) && forall low: nat :: InPage(c.pc, low) == Page(before) + low
  {
  }

  /** A delayed select sends the jsb or goto behind it to its target in the page selected; the call comes back
      behind the jsb, in the page it was made from. */
  lemma FarBranch(m: Act, w1: Word, w2: Word, k: Model, x: Inputs, rom: nat, target: nat, jsb: bool)
    requires Inv(m) && ValidInputs(x) && m.ctl.inst == Normal && !m.ctl.delRomFlag && rom < 16 && target < 256
    requires Number(w1) == WordFor(DelayedRom(rom))
    requires Number(w2) == WordFor(if jsb then JsbTo(target) else GotoTo(target))
    ensures Inv(CycleOn(m, w1, k, x))
    ensures var u := CycleOn(CycleOn(m, w1, k, x), w2, k, x);
            && u.ctl.pc == rom * 256 + target && Proper(m.ctl.calls)
            && u.ctl.calls == if jsb then ReturnStacks.Jsb(m.ctl.calls, (m.ctl.pc + 2) % 4096) else m.ctl.calls
  {
    hide Number, CycleOn, WordFor, ReturnStacks.Jsb, Inv, Placed, Page, Proper, Bank;
    CycleKeepsInv(m, w1, k, x);
    ProperCalls(m);
    StatementCarried(m, w1, k, x, DelayedRom(rom));
    var t := CycleOn(m, w1, k, x);
    StatementCarried(t, w2, k, x, if jsb then JsbTo(target) else GotoTo(target));
    InPlace(t.ctl, rom, target);
    Unplaced(m.ctl);
  }

  lemma Unplaced(c: Control)
    requires !c.delRomFlag
    ensures Placed(c, Behind(c)) == Behind(c) && (Behind(c) + 1) % 4096 == (c.pc + 2) % 4096
  {
  }

  lemma InPlace(c: Control, rom: nat, target: nat)
    requires c.delRomFlag && c.delRom == rom && target < 256
    ensures Placed(c, Page(c) + target) == rom * 256 + target
  {
  }

  lemma ProperCalls(m: Act)
    requires Inv(m)
    ensures Proper(m.ctl.calls)
  {
  }

  // ---------- well-bracketed stretches of a program ----------

  /** What a stretch of a run consists of: words that make no call and no return, and calls with what is done
      inside them and the return that ends them. */
  datatype Code = End | Plain(w: Word, x: Inputs, next: Code)
                | Called(w: Word, x: Inputs, body: Code, back: Word, y: Inputs, next: Code)

  datatype Option<T> = None | Some(value: T)

  /** A word in the place of an instruction. */
  ghost predicate Performs(m: Act, w: Word, op: Op) {
    m.ctl.inst == Normal && Decode(Number(w)) == op
  }

  ghost predicate LeavesStack(m: Act, w: Word) {
    m.ctl.inst == ThenGoto
    || (m.ctl.inst == Normal && Decode(Number(w)) != WoodstockSpec.Jsb && Decode(Number(w)) != ReturnOp)
  }

  /** The state after such a stretch, if its words make it one. A return under a pending select would go to
      another page. */
  ghost function Exec(code: Code, m: Act, k: Model): (r: Option<Act>)
    requires Inv(m)
    ensures r.Some? ==> Inv(r.value)
  {
    match code
    case End => Some(m)
    case Plain(w, x, next) =>
      if !ValidInputs(x) || !LeavesStack(m, w) then None else Exec(next, After(m, w, k, x), k)
    case Called(w, x, body, back, y, next) =>
      if !ValidInputs(x) || !ValidInputs(y) || !Performs(m, w, WoodstockSpec.Jsb) then None
      else
        var inside := Exec(body, After(m, w, k, x), k);
        if inside.None? || !Performs(inside.value, back, ReturnOp) || inside.value.ctl.delRomFlag then None
        else Exec(next, After(inside.value, back, k, y), k)
  }

  ghost function After(m: Act, w: Word, k: Model, x: Inputs): (t: Act)
    requires Inv(m) && ValidInputs(x)
    ensures Inv(t)
  {
    CycleKeepsInv(m, w, k, x);
    CycleOn(m, w, k, x)
  }

  /** The calls of a stretch, each with the address behind its jsb. */
  ghost function CallsOf(code: Code, m: Act, k: Model): Calls
    requires Inv(m) && Exec(code, m, k).Some?
  {
    match code
    case End => Done
    case Plain(w, x, next) => CallsOf(next, After(m, w, k, x), k)
    case Called(w, x, body, back, y, next) =>
      var t := After(m, w, k, x);
      var u := Exec(body, t, k).value;
      Call((m.ctl.pc + 1) % 4096, CallsOf(body, t, k), CallsOf(next, After(u, back, k, y), k))
  }

  /** Every return in the stretch goes on behind the jsb of its own call. */
  ghost predicate ReturnsRight(code: Code, m: Act, k: Model)
    requires Inv(m) && Exec(code, m, k).Some?
  {
    match code
    case End => true
    case Plain(w, x, next) => ReturnsRight(next, After(m, w, k, x), k)
    case Called(w, x, body, back, y, next) =>
      var t := After(m, w, k, x);
      var u := Exec(body, t, k).value;
      var v := After(u, back, k, y);
      v.ctl.pc == (m.ctl.pc + 1) % 4096 && ReturnsRight(body, t, k) && ReturnsRight(next, v, k)
  }

  lemma JsbCycle(m: Act, w: Word, k: Model, x: Inputs)
    requires Inv(m) && ValidInputs(x) && Performs(m, w, WoodstockSpec.Jsb)
    ensures Proper(m.ctl.calls) && CycleOn(m, w, k, x).ctl.calls == ReturnStacks.Jsb(m.ctl.calls, (m.ctl.pc + 1) % 4096)
  {
    hide Decode, Number, CycleOn, ReturnStacks.Jsb, Bank;
    ControlCycle(m, w, k, x);
  }

  lemma ReturnCycle(m: Act, w: Word, k: Model, x: Inputs)
    requires Inv(m) && ValidInputs(x) && Performs(m, w, ReturnOp) && !m.ctl.delRomFlag
    ensures Proper(m.ctl.calls)
    ensures (CycleOn(m, w, k, x).ctl.pc, CycleOn(m, w, k, x).ctl.calls) == Return(m.ctl.calls)
  {
    hide Decode, Number, CycleOn, Return, Bank;
    ControlCycle(m, w, k, x);
  }

  lemma StackLeft(m: Act, w: Word, k: Model, x: Inputs)
    requires Inv(m) && ValidInputs(x) && LeavesStack(m, w)
    ensures CycleOn(m, w, k, x).ctl.calls == m.ctl.calls
  {
    hide Decode, Number, CycleOn, Bank, ControlOp;
    if m.ctl.inst == Normal {
      ControlCycle(m, w, k, x);
      var c := m.ctl.(bank := Bank(m.ctl, k), delRomFlag := false, pc := (m.ctl.pc + 1) % 4096);
      OperationLeavesStack(c, Decode(Number(w)), Number(w), m.fl.carry, x);
    } else {
      ThenCycle(m, w, k, x);
    }
  }

  lemma OperationLeavesStack(c: Control, op: Op, o: nat, prevCarry: bool, x: Inputs)
    requires Proper(c.calls) && c.bank < 2 && op != WoodstockSpec.Jsb && op != ReturnOp
    ensures ControlOp(c, op, o, prevCarry, x).calls == c.calls
  {
    hide InPage, Tests;
  }

  /** The words of a stretch do to the stack what the trace of its calls does, and its returns are right exactly
      when those of the trace are. */
  lemma {:induction false} StretchIsTrace(code: Code, m: Act, k: Model)
    requires Inv(m) && Exec(code, m, k).Some?
    ensures Proper(m.ctl.calls)
    ensures var (ok, stack) := RunCircular(CallsOf(code, m, k), m.ctl.calls);
            Exec(code, m, k).value.ctl.calls == stack && (ReturnsRight(code, m, k) <==> ok)
  {
    hide Inv, CycleOn, LeavesStack, Performs, ReturnStacks.Jsb, Return, Proper;
    ProperCalls(m);
    match code
    case End =>
    case Plain(w, x, next) =>
      StackLeft(m, w, k, x);
      StretchIsTrace(next, After(m, w, k, x), k);
    case Called(w, x, body, back, y, next) =>
      var t := After(m, w, k, x);
      JsbCycle(m, w, k, x);
      StretchIsTrace(body, t, k);
      var u := Exec(body, t, k).value;
      ReturnCycle(u, back, k, y);
      StretchIsTrace(next, After(u, back, k, y), k);
  }

  /** The returns of a stretch of a program are right exactly when its calls keep the two slots, so always if it
      is at most two levels deep; and then the entries that are left over are still there. */
  lemma StretchReturns(code: Code, m: Act, k: Model)
    requires Inv(m) && Exec(code, m, k).Some?
    ensures var calls, t := CallsOf(code, m, k), Exec(code, m, k).value;
            && Proper(m.ctl.calls) && Proper(t.ctl.calls)
            && (ReturnsRight(code, m, k) <==> SlotsKept(calls))
            && (Depth(calls) <= 2 ==>
                  ReturnsRight(code, m, k)
                  && forall i :: 1 <= i <= 2 - Depth(calls) ==> Live(t.ctl.calls, i) == Live(m.ctl.calls, i))
  {
    hide Inv, Exec, CallsOf, ReturnsRight, RunCircular, Live, Proper;
    StretchIsTrace(code, m, k);
    var calls := CallsOf(code, m, k);
    CircularExactly(calls, m.ctl.calls);
    if Depth(calls) <= 2 {
      CircularReturns(calls, m.ctl.calls);
    }
  }

  // ---------- arithmetic over no digits ----------

  /** The carry that the digit operation itself leaves over a field without digits: sums and differences that add
      one more start with a carry, tests for zero hold of nothing. */
  function OverNothing(op: nat): bool {
    match op
    case 9 => DigitOps.AddDigits([], [], false, 10).1    // a + b -> a
    case 10 => DigitOps.AddDigits([], [], false, 10).1   // a + c -> a
    case 11 => DigitOps.AddDigits([], [], false, 10).1   // c + c -> c
    case 12 => DigitOps.AddDigits([], [], false, 10).1   // a + c -> c
    case 13 => DigitOps.AddDigits([], [], true, 10).1    // a + 1 -> a
    case 15 => DigitOps.AddDigits([], [], true, 10).1    // c + 1 -> c
    case 16 => DigitOps.SubDigits([], [], false, 10).1   // a - b -> a
    case 17 => DigitOps.SubDigits([], [], false, 10).1   // a - c -> c
    case 18 => DigitOps.SubDigits([], [], true, 10).1    // a - 1 -> a
    case 19 => DigitOps.SubDigits([], [], true, 10).1    // c - 1 -> c
    case 20 => DigitOps.SubDigits([], [], false, 10).1   // 0 - c -> c
    case 21 => DigitOps.SubDigits([], [], true, 10).1    // 0 - c - 1 -> c
    case 22 => DigitOps.Zeros(0) != []                   // if b = 0
    case 23 => DigitOps.Zeros(0) != []                   // if c = 0
    case 24 => DigitOps.SubDigits([], [], false, 10).1   // if a >= c
    case 25 => DigitOps.SubDigits([], [], false, 10).1   // if a >= b
    case 26 => DigitOps.Zeros(0) == []                   // if a # 0
    case 27 => DigitOps.Zeros(0) == []                   // if c # 0
    case 28 => DigitOps.SubDigits([], [], false, 10).1   // a - c -> a
    case _ => false
  }

  /** With the pointer beyond the register, an operation over its digit leaves the carry that it starts with. */
  lemma NothingCarried(o: nat, p: nat, carryOut: bool)
    requires o < 1024 && o / 4 % 8 == 0 && p >= 14
    ensures ArithCarry(o, p, carryOut) <==> OverNothing(o / 32)
  {
    FieldOfNothing(o, p);
    LeftOverNothing(o / 32);
    hide OverNothing, NoDigits, CarriesIn, Carries, Compares;
  }

  lemma FieldOfNothing(o: nat, p: nat)
    requires o < 1024 && o / 4 % 8 == 0 && p >= 14
    ensures NoDigits(o, p)
  {
  }

  lemma LeftOverNothing(op: nat)
    requires op < 32
    ensures OverNothing(op) <==> (Carries(op) || Compares(op)) && (CarriesIn(op) || op == 26 || op == 27)
  {
  }

  /** A statement that sums, subtracts or compares leaves the carry of its digits for the branch behind it: a
      `then go to` is taken when it is clear, and so is an `if no carry go to`. */
  lemma ArithThen(m: Act, w1: Word, w2: Word, k: Model, x1: Inputs, x2: Inputs)
    requires Inv(m) && ValidInputs(x1) && ValidInputs(x2) && m.ctl.inst == Normal && Number(w1) % 4 == 2
    ensures var carry := if 9 <= Number(w1) / 32 <= 28 && Number(w1) / 32 != 14
                         then (if Number(w1) / 4 % 8 == 0 && m.fl.p >= 14 then OverNothing(Number(w1) / 32)
                               else x1.carryOut)
                         else false;
            var t := CycleOn(m, w1, k, x1);
            && Inv(t) && t.fl.carry == carry
            && (if 22 <= Number(w1) / 32 <= 27 then Branches(m, CycleOn(t, w2, k, x2), w2, !carry)
                else GoesOn(m, t))
  {
    hide Number, CycleOn, OverNothing, Inv, Polled, ArithCarry, Branches, Selected;
    CycleKeepsInv(m, w1, k, x1);
    FlagsCycle(m, w1, k, x1);
    ArithmeticWord(Number(w1));
    CarryOf(Number(w1), m.fl.p, x1.carryOut);
    if 22 <= Number(w1) / 32 <= 27 {
      TestThen(m, w1, w2, k, x1, x2, !CycleOn(m, w1, k, x1).fl.carry);
    } else {
      ControlCycle(m, w1, k, x1);
      NextInPage(m.ctl, m.ctl.(bank := Bank(m.ctl, k), delRomFlag := false, pc := (m.ctl.pc + 1) % 4096));
    }
  }

  lemma ArithmeticWord(o: nat)
    requires o < 1024 && o % 4 == 2
    ensures Decode(o) == ArithField && (Tests(Decode(o), o) <==> 22 <= o / 32 <= 27)
  {
  }

  lemma CarryOf(o: nat, p: nat, carryOut: bool)
    requires o < 1024
    ensures ArithCarry(o, p, carryOut)
            <==> 9 <= o / 32 <= 28 && o / 32 != 14
                 && if o / 4 % 8 == 0 && p >= 14 then OverNothing(o / 32) else carryOut
  {
    if o / 4 % 8 == 0 && p >= 14 {
      NothingCarried(o, p, carryOut);
    }
    hide OverNothing;
  }
}
