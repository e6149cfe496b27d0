/** Moves between registers, stack and RAM of the Classic processor, and the entry of constants, by the words the
    assembler writes for them. */
module ClassicRegisters {
  import opened DigitOps
  import opened ClassicSpec
  import opened ClassicAsm

  const C_EXCHANGE_M: Word := 0x0a8
  const M_TO_C: Word := 0x2a8
  const C_TO_STACK: Word := 0x128
  const STACK_TO_A: Word := 0x1a8
  const DOWN_ROTATE: Word := 0x328
  const CLEAR_REGISTERS: Word := 0x3a8
  const C_TO_DATA_ADDRESS: Word := 0x270
  const C_TO_DATA: Word := 0x2f0
  const DATA_TO_C: Word := 0x2f8
  const DISPLAY_OFF: Word := 0x228
  const DISPLAY_TOGGLE: Word := 0x028
  const NO_OPERATION: Word := 0x000

  function LoadConstantWord(n: nat): (o: Word)
    requires n < 10
  {
    64 * n + 0x018
  }

  lemma MoveWords()
    ensures Decode(C_EXCHANGE_M) == CExchM && Decode(M_TO_C) == MToC && Decode(C_TO_STACK) == CToStack
    ensures Decode(STACK_TO_A) == StackToA && Decode(DOWN_ROTATE) == DownRotate && Decode(CLEAR_REGISTERS) == ClearReg
  {
  }

  lemma DataWords()
    ensures Decode(C_TO_DATA_ADDRESS) == CToAddr && Decode(C_TO_DATA) == ClassicSpec.CToData
    ensures Decode(DATA_TO_C) == DataToC
  {
  }

  lemma DisplayDecoded()
    ensures Decode(DISPLAY_OFF) == DisplayOff && Decode(DISPLAY_TOGGLE) == DisplayToggle && Decode(NO_OPERATION) == Nop
  {
  }

  lemma ConstantWords(n: nat)
    requires n < 10
    ensures Decode(LoadConstantWord(n)) == LoadConstant && LoadConstantWord(n) / 64 == n
  {
  }

  /** The registers, the pointer and RAM, which moves work on. */
  datatype Store = Store(a: Register, b: Register, c: Register, d: Register, e: Register, f: Register, m: Register,
                         p: nat, ramAddr: nat, ram: seq<Register>)

  function StoreOf(m: Machine): Store {
    Store(m.acc.a, m.acc.b, m.acc.c, m.d, m.e, m.f, m.m, m.p, m.ramAddr, m.ram)
  }

  lemma ApplyTransfers(m: Machine, op: Op, o: Word, twoDigit: bool)
    requires |m.s| == SSIZE && Transfers(op)
    ensures Apply(m, op, o, twoDigit) == Transfer(m, op, o, twoDigit)
  {
    hide Transfers, Transfer, Control;
  }

  /** A move changes registers, pointer or RAM and nothing else, and goes on behind it. */
  lemma MoveStep(m: Machine, o: Word, twoDigit: bool)
    requires |m.s| == SSIZE && |m.ext| == 2 && Transfers(Decode(o))
    ensures Step(m, o, twoDigit)
            == Transfer(Prepared(m), Decode(o), o, twoDigit).(at := Selected(m.at, Prepared(m).at))
  {
    hide Decode, Polled, Transfers, Transfer, Selected, Apply;
    ApplyTransfers(Prepared(m), Decode(o), o, twoDigit);
  }

  lemma PreparedStore(m: Machine)
    requires |m.s| == SSIZE && |m.ext| == 2
    ensures StoreOf(Prepared(m)) == StoreOf(m)
  {
    hide Polled;
  }

  /** What each move does. */
  function Moved(r: Store, op: Op): Store {
    match op
    case CExchM => r.(c := r.m, m := r.c)
    case MToC => r.(c := r.m)
    case CToStack => r.(d := r.c, e := r.d, f := r.e)
    case StackToA => r.(a := r.d, d := r.e, e := r.f)
    case DownRotate => r.(c := r.d, d := r.e, e := r.f, f := r.c)
    case _ => r.(a := ZERO, b := ZERO, c := ZERO, d := ZERO, e := ZERO, f := ZERO, m := ZERO)
  }

  predicate IsMove(op: Op) {
    op == CExchM || op == MToC || op == CToStack || op == StackToA || op == DownRotate || op == ClearReg
  }

  lemma OneMove(m: Machine, o: Word, twoDigit: bool)
    requires Inv(m) && IsMove(Decode(o))
    ensures StoreOf(Step(m, o, twoDigit)) == Moved(StoreOf(m), Decode(o))
  {
    hide Step, Decode, Inv, RamAddress, ArithWord, LoadDigit;
    hide Prepared;
    Sizes(m);
    PreparedStore(m);
    MoveStep(m, o, twoDigit);
  }

  /** The moves between registers: the two with the memory register, the three of the stack, whose top register
      stays when it is popped, and clearing. */
  lemma Moves(m: Machine, twoDigit: bool)
    requires Inv(m)
    ensures var r := StoreOf(m);
            && StoreOf(Step(m, C_EXCHANGE_M, twoDigit)) == r.(c := m.m, m := m.acc.c)
            && StoreOf(Step(m, M_TO_C, twoDigit)) == r.(c := m.m)
            && StoreOf(Step(m, C_TO_STACK, twoDigit)) == r.(d := m.acc.c, e := m.d, f := m.e)
            && StoreOf(Step(m, STACK_TO_A, twoDigit)) == r.(a := m.d, d := m.e, e := m.f)
            && StoreOf(Step(m, DOWN_ROTATE, twoDigit)) == r.(c := m.d, d := m.e, e := m.f, f := m.acc.c)
            && StoreOf(Step(m, CLEAR_REGISTERS, twoDigit))
               == r.(a := ZERO, b := ZERO, c := ZERO, d := ZERO, e := ZERO, f := ZERO, m := ZERO)
  {
    hide Step, Decode, Inv;
    Sizes(m);
    MoveWords();
    OneMove(m, C_EXCHANGE_M, twoDigit);
    OneMove(m, M_TO_C, twoDigit);
    OneMove(m, C_TO_STACK, twoDigit);
    OneMove(m, STACK_TO_A, twoDigit);
    OneMove(m, DOWN_ROTATE, twoDigit);
    OneMove(m, CLEAR_REGISTERS, twoDigit);
  }

  /** Rotating down after a push is rotating back: all is as before but for the top of the stack. */
  lemma PushAndRotate(m: Machine, twoDigit: bool)
    requires Inv(m)
    ensures var t := Step(m, C_TO_STACK, twoDigit);
            Inv(t) && StoreOf(Step(t, DOWN_ROTATE, twoDigit)) == StoreOf(m).(f := m.acc.c)
  {
    hide Step, Inv;
    StepKeepsInv(m, C_TO_STACK, twoDigit);
    Sizes(m);
    Moves(m, twoDigit);
    Moves(Step(m, C_TO_STACK, twoDigit), twoDigit);
  }

  // ---------- RAM ----------

  /** The register that an address names: one digit of it, and one calculator's two. */
  lemma Addressed(m: Machine, twoDigit: bool)
    requires Inv(m)
    ensures var t, high: nat, low: nat := Step(m, C_TO_DATA_ADDRESS, twoDigit), m.acc.c[12], m.acc.c[11];
            StoreOf(t) == StoreOf(m).(ramAddr := if twoDigit && m.acc.c[0] > 0 then 16 * high + low else high)
  {
    hide Step, Decode, Inv, ArithWord, LoadDigit;
    hide Prepared;
    Sizes(m);
    DataWords();
    PreparedStore(m);
    MoveStep(m, C_TO_DATA_ADDRESS, twoDigit);
  }

  lemma Stored(m: Machine, k: nat, twoDigit: bool)
    requires Inv(m) && k < |m.ram|
    ensures var t := Step(m, C_TO_DATA, twoDigit);
            && StoreOf(t) == StoreOf(m).(ram := t.ram) && |t.ram| == |m.ram|
            && t.ram[k] == if k == m.ramAddr then m.acc.c else m.ram[k]
  {
    hide Step, Decode, Inv, ArithWord, LoadDigit, RamAddress;
    hide Prepared;
    Sizes(m);
    DataWords();
    PreparedStore(m);
    MoveStep(m, C_TO_DATA, twoDigit);
  }

  lemma Recalled(m: Machine, twoDigit: bool)
    requires Inv(m)
    ensures var u := Step(m, DATA_TO_C, twoDigit);
            StoreOf(u) == StoreOf(m).(c := if m.ramAddr < |m.ram| then m.ram[m.ramAddr] else Zeros(14))
  {
    hide Step, Decode, Inv, ArithWord, LoadDigit, RamAddress;
    hide Prepared;
    Sizes(m);
    DataWords();
    PreparedStore(m);
    MoveStep(m, DATA_TO_C, twoDigit);
  }

  /** Storing changes the register addressed and no other, and what is stored is recalled; an address without a
      register takes nothing and recalls zero. */
  lemma StoreAndRecall(m: Machine, k: nat, twoDigit: bool)
    requires Inv(m) && k < |m.ram|
    ensures var t := Step(m, C_TO_DATA, twoDigit);
            && Inv(t) && |t.ram| == |m.ram| && t.ram[k] == (if k == m.ramAddr then m.acc.c else m.ram[k])
            && Step(t, DATA_TO_C, twoDigit).acc.c == if m.ramAddr < |m.ram| then m.acc.c else Zeros(14)
  {
    hide Step, Inv;
    Sizes(m);
    Stored(m, k, twoDigit);
    var t := Step(m, C_TO_DATA, twoDigit);
    StepKeepsInv(m, C_TO_DATA, twoDigit);
    if m.ramAddr < |m.ram| {
      Stored(m, m.ramAddr, twoDigit);
    }
    Sizes(t);
    Recalled(t, twoDigit);
  }

  // ---------- constants ----------

  lemma ConstantStep(m: Machine, n: nat, twoDigit: bool)
    requires Inv(m) && n < 10
    ensures var t := Step(m, LoadConstantWord(n), twoDigit);
            && Inv(t)
            && StoreOf(t) == StoreOf(m).(c := if m.p < 14 then m.acc.c[m.p := n] else m.acc.c,
                                         p := if m.p == 0 then 15 else m.p - 1)
  {
    hide Step, Decode, Inv;
    hide Prepared;
    Sizes(m);
    ConstantWords(n);
    PreparedStore(m);
    MoveStep(m, LoadConstantWord(n), twoDigit);
    StepKeepsInv(m, LoadConstantWord(n), twoDigit);
  }

  function Enter(m: Machine, ds: seq<nat>, twoDigit: bool): Option<Machine>
    decreases |ds|
  {
    if ds == [] then Some(m)
    else if |m.s| != SSIZE || |m.ext| != 2 || ds[0] > 9 then None
    else Enter(Step(m, LoadConstantWord(ds[0]), twoDigit), ds[1..], twoDigit)
  }

  /** Constants loaded one after the other fill register c from the pointer down, and leave the pointer below
      them. */
  lemma {:induction false} NumberEntered(m: Machine, ds: seq<nat>, i: nat, twoDigit: bool)
    requires Inv(m) && m.p < 14 && |ds| <= m.p + 1 && i < 14 && forall d :: d in ds ==> d <= 9
    ensures var t := Enter(m, ds, twoDigit);
            && t.Some? && Inv(t.value) && t.value.p == (m.p + 16 - |ds|) % 16
            && t.value.acc.c[i] == (if m.p - |ds| < i <= m.p then ds[m.p - i] else m.acc.c[i])
            && StoreOf(t.value) == StoreOf(m).(c := t.value.acc.c, p := t.value.p)
    decreases |ds|
  {
    hide Step, Inv, LoadConstantWord;
    Sizes(m);
    if ds != [] {
      assert ds[0] in ds && forall d :: d in ds[1..] ==> d in ds;
      ConstantStep(m, ds[0], twoDigit);
      var t := Step(m, LoadConstantWord(ds[0]), twoDigit);
      if |ds| == 1 {
        assert ds[1..] == [];
      } else {
        NumberEntered(t, ds[1..], i, twoDigit);
      }
    }
  }

  // ---------- display ----------

  /** Toggling the display twice leaves it as it was, and after it is switched off it is on. */
  lemma DisplayWords(m: Machine, twoDigit: bool)
    requires Inv(m)
    ensures var t, u := Step(m, DISPLAY_TOGGLE, twoDigit), Step(m, DISPLAY_OFF, twoDigit);
            && Inv(t) && Inv(u) && t.display == !m.display && !u.display
            && Step(t, DISPLAY_TOGGLE, twoDigit).display == m.display && Step(u, DISPLAY_TOGGLE, twoDigit).display
            && StoreOf(t) == StoreOf(u) == StoreOf(Step(m, NO_OPERATION, twoDigit)) == StoreOf(m)
  {
    hide Step, Decode, Inv, Polled;
    Sizes(m);
    DisplayDecoded();
    StepKeepsInv(m, DISPLAY_TOGGLE, twoDigit);
    StepKeepsInv(m, DISPLAY_OFF, twoDigit);
    var t, u := Step(m, DISPLAY_TOGGLE, twoDigit), Step(m, DISPLAY_OFF, twoDigit);
    Sizes(t);
    Sizes(u);
    DisplayStep(m, DISPLAY_TOGGLE, twoDigit);
    DisplayStep(m, DISPLAY_OFF, twoDigit);
    DisplayStep(m, NO_OPERATION, twoDigit);
    PanelStep(m, DISPLAY_TOGGLE, twoDigit);
    PanelStep(m, DISPLAY_OFF, twoDigit);
    PanelStep(t, DISPLAY_TOGGLE, twoDigit);
    PanelStep(u, DISPLAY_TOGGLE, twoDigit);
  }

  lemma DisplayStep(m: Machine, o: Word, twoDigit: bool)
    requires |m.s| == SSIZE && |m.ext| == 2
    requires Decode(o) == DisplayToggle || Decode(o) == DisplayOff || Decode(o) == Nop
    ensures StoreOf(Step(m, o, twoDigit)) == StoreOf(m)
  {
    hide Decode, Polled, Step, PanelOp;
    DisplayPanel(Panel(m.p, false, Polled(m.s, m.keyFlag, m.ext), m.display), Decode(o), o / 64);
    PanelStep(m, o, twoDigit);
  }

  lemma DisplayPanel(v: Panel, op: Op, n: nat)
    requires |v.s| == SSIZE && (op == DisplayToggle || op == DisplayOff || op == Nop)
    ensures PanelOp(v, op, n).p == v.p
  {
  }
}
