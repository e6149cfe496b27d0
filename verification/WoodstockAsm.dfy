/** The Woodstock processor against its assembler, src/wasm_y.y: the words written for status, pointer and branch
    statements, carried out by the processor, branch the way the statements say. */
module WoodstockAsm {
  import Numbers
  import opened ReturnStacks
  import opened WoodstockSpec

  /** The address of the next word, when a select is pending or not. */
  function Next(c: Control): nat {
    if c.delRomFlag then c.delRom * 256 + (c.pc + 1) % 256 else (c.pc + 1) % 4096
  }

  /** What a word other than a branch does to control: it goes on. */
  predicate GoesOn(m: Act, t: Act) {
    t.ctl.pc == Next(m.ctl) && t.ctl.inst == Normal && !t.ctl.delRomFlag && t.ctl.calls == m.ctl.calls
  }

  lemma NextInPage(c: Control, t: Control)
    requires t.pc == (c.pc + 1) % 4096
    ensures Selected(c, t) == t.(pc := Next(c))
  {
  }

  /** The external lines set bits 3, 5 and 15, and clear none. */
  lemma PolledAt(s: seq<bool>, x: Inputs, spice: bool, n: nat)
    requires |s| == 16 && n < 16
    ensures var f1, f2 := x.f1 || (s[0] && x.f1IfS0), x.f2 || (s[0] && x.f2IfS0);
            Polled(s, x, spice)[n]
            == (s[n] || (n == 5 && !spice && !f1) || (n == 3 && f2) || (n == 15 && x.key))
  {
  }

  // ---------- status bits ----------

  /** `1 -> s n` and `0 -> s n`; `if s n = 1` and `if s n = 0`. */
  function StatusStatement(n: nat, val: bool): (o: nat)
    requires n < 16
    ensures o < 1024
  {
    64 * n + if val then 4 else 12
  }

  function StatusTest(n: nat, val: bool): (o: nat)
    requires n < 16
    ensures o < 1024
  {
    64 * n + if val then 20 else 28
  }

  const CLEAR_STATUS := 72

  lemma StatusDecoded(n: nat, val: bool)
    requires n < 16
    ensures Decode(StatusStatement(n, val)) == (if val then SetS else ClrS) && StatusStatement(n, val) / 64 == n
    ensures Decode(StatusTest(n, val)) == (if val then TestS1 else TestS0) && StatusTest(n, val) / 64 == n
    ensures Decode(CLEAR_STATUS) == ClearS
  {
  }

  /** What a cycle does to carry, pointer and status bits. */
  lemma FlagsCycle(m: Act, w: Word, k: Model, x: Inputs)
    requires Inv(m) && ValidInputs(x) && m.ctl.inst == Normal
    ensures var f := m.fl.(pChange := [0, m.fl.pChange[0], m.fl.pChange[1]], prevCarry := m.fl.carry, carry := false);
            var r := FlagsOp(f, Decode(Number(w)), Number(w), m.ctl.pc, x);
            CycleOn(m, w, k, x).fl == r.(s := Polled(r.s, x, k.spice))
  {
    hide ControlOp, FlagsOp, Decode, Number, Polled, Selected, Bank;
  }

  lemma ControlCycle(m: Act, w: Word, k: Model, x: Inputs)
    requires Inv(m) && ValidInputs(x) && m.ctl.inst == Normal
    ensures var c := m.ctl.(bank := Bank(m.ctl, k), delRomFlag := false, pc := (m.ctl.pc + 1) % 4096);
            && Proper(c.calls) && c.bank < 2
            && CycleOn(m, w, k, x).ctl == Selected(m.ctl, ControlOp(c, Decode(Number(w)), Number(w), m.fl.carry, x))
  {
    hide ControlOp, FlagsOp, Decode, Number, Polled, Selected;
  }

  /** A status statement changes its own bit, and then the external lines set theirs. */
  lemma StatusStep(m: Act, w: Word, k: Model, x: Inputs, n: nat, val: bool)
    requires Inv(m) && ValidInputs(x) && m.ctl.inst == Normal && n < 16 && Number(w) == StatusStatement(n, val)
    ensures var t := CycleOn(m, w, k, x);
            GoesOn(m, t) && !t.fl.carry && t.fl.p == m.fl.p && t.fl.s == Polled(m.fl.s[n := val], x, k.spice)
  {
    hide Decode, Number, Polled, CycleOn, Selected, StatusStatement;
    StatusDecoded(n, val);
    FlagsCycle(m, w, k, x);
    ControlCycle(m, w, k, x);
    NextInPage(m.ctl, m.ctl.(bank := Bank(m.ctl, k), delRomFlag := false, pc := (m.ctl.pc + 1) % 4096));
  }

  /** Clearing the status bits spares 1, 2, 5 and 15. */
  lemma ClearStep(m: Act, w: Word, k: Model, x: Inputs, n: nat)
    requires Inv(m) && ValidInputs(x) && m.ctl.inst == Normal && n < 16 && Number(w) == CLEAR_STATUS
    ensures var t, kept := CycleOn(m, w, k, x), n == 1 || n == 2 || n == 5 || n == 15;
            GoesOn(m, t) && (t.fl.s[n] <==> (kept && m.fl.s[n])
                                            || (n == 5 && !k.spice && !x.f1) || (n == 3 && x.f2) || (n == 15 && x.key))
  {
    hide Decode, Number, Polled, CycleOn, Selected;
    StatusDecoded(0, true);
    FlagsCycle(m, w, k, x);
    ControlCycle(m, w, k, x);
    NextInPage(m.ctl, m.ctl.(bank := Bank(m.ctl, k), delRomFlag := false, pc := (m.ctl.pc + 1) % 4096));
    PolledAt(Cleared(m.fl.s), x, k.spice, n);
  }

  // ---------- tests ----------

  /** Where `then go to` leads, when its test succeeds. */
  function ThenTarget(c: Control, w: Word): nat {
    (Next(c) + 1) % 4096 / 1024 * 1024 + Number(w)
  }

  /** The second word of a test: its address if the carry is clear, and else the word behind it. */
  lemma ThenCycle(t: Act, w: Word, k: Model, x: Inputs)
    requires Inv(t) && ValidInputs(x) && t.ctl.inst == ThenGoto
    ensures var u := CycleOn(t, w, k, x);
            && u.ctl.inst == Normal && u.ctl.calls == t.ctl.calls && !u.fl.carry
            && u.ctl.pc == if t.fl.carry then (t.ctl.pc + 1) % 4096
                           else (t.ctl.pc + 1) % 4096 / 1024 * 1024 + Number(w)
  {
    hide Polled, Number;
  }

  lemma TestsControl(c: Control, op: Op, o: nat, carry: bool, x: Inputs)
    requires Proper(c.calls) && c.bank < 2 && Tests(op, o)
    ensures ControlOp(c, op, o, carry, x) == c.(inst := ThenGoto)
  {
    hide Tests;
  }

  /** The first word of a test. */
  lemma TestCycle(m: Act, w: Word, k: Model, x: Inputs)
    requires Inv(m) && ValidInputs(x) && m.ctl.inst == Normal && Tests(Decode(Number(w)), Number(w))
    ensures var t := CycleOn(m, w, k, x);
            Inv(t) && t.ctl.inst == ThenGoto && t.ctl.pc == Next(m.ctl) && t.ctl.calls == m.ctl.calls
  {
    hide *;
    CycleKeepsInv(m, w, k, x);
    ControlCycle(m, w, k, x);
    TestsControl(m.ctl.(bank := Bank(m.ctl, k), delRomFlag := false, pc := (m.ctl.pc + 1) % 4096), Decode(Number(w)),
                 Number(w), m.fl.carry, x);
    NextInPage(m.ctl, m.ctl.(bank := Bank(m.ctl, k), inst := ThenGoto, delRomFlag := false,
                             pc := (m.ctl.pc + 1) % 4096));
  }

  /** A test and the word behind it, whatever is tested: the branch is taken exactly when the carry stays clear. */
  lemma TestThen(m: Act, w1: Word, w2: Word, k: Model, x1: Inputs, x2: Inputs, holds: bool)
    requires Inv(m) && ValidInputs(x1) && ValidInputs(x2) && m.ctl.inst == Normal
    requires Tests(Decode(Number(w1)), Number(w1)) && CycleOn(m, w1, k, x1).fl.carry == !holds
    ensures Inv(CycleOn(m, w1, k, x1)) && Branches(m, CycleOn(CycleOn(m, w1, k, x1), w2, k, x2), w2, holds)
  {
    hide Decode, Number, Tests, CycleOn, Inv;
    TestCycle(m, w1, k, x1);
    ThenCycle(CycleOn(m, w1, k, x1), w2, k, x2);
  }

  predicate Branches(m: Act, u: Act, w2: Word, holds: bool) {
    && u.ctl.inst == Normal && u.ctl.calls == m.ctl.calls
    && u.ctl.pc == if holds then ThenTarget(m.ctl, w2) else (Next(m.ctl) + 1) % 4096
  }

  /** `if s n = val`, `then go to`: the branch is taken exactly when the bit has that value. */
  lemma StatusThenGoto(m: Act, w1: Word, w2: Word, k: Model, x1: Inputs, x2: Inputs, n: nat, val: bool)
    requires Inv(m) && ValidInputs(x1) && ValidInputs(x2) && m.ctl.inst == Normal
    requires n < 16 && Number(w1) == StatusTest(n, val)
    ensures Inv(CycleOn(m, w1, k, x1))
    ensures Branches(m, CycleOn(CycleOn(m, w1, k, x1), w2, k, x2), w2, m.fl.s[n] == val)
  {
    hide Decode, Number, CycleOn, StatusTest, Polled, Branches;
    StatusDecoded(n, val);
    FlagsCycle(m, w1, k, x1);
    TestThen(m, w1, w2, k, x1, x2, m.fl.s[n] == val);
  }

  // ---------- the pointer ----------

  /** ptr_load_map and ptr_test_map: how the assembler writes a pointer value. */
  const LOAD_MAP: seq<nat> := [12, 8, 5, 9, 1, 14, 11, 2, 3, 13, 6, 4, 7, 10]
  const TEST_MAP: seq<nat> := [11, 5, 3, 7, 0, 10, 6, 14, 1, 4, 13, 12, 2, 9]

  datatype PointerStatement = Load(n: nat) | Increment | Decrement

  predicate Writable(s: PointerStatement) {
    s.Load? ==> s.n < 14
  }

  function PointerWord(s: PointerStatement): (o: nat)
    requires Writable(s)
    ensures o < 1024
  {
    match s
    case Load(n) => 64 * LOAD_MAP[n] + 60
    case Increment => 464
    case Decrement => 400
  }

  /** `if p = n`, `if p # n`. */
  function PointerTest(n: nat, equal: bool): (o: nat)
    requires n < 14
    ensures o < 1024
  {
    64 * TEST_MAP[n] + if equal then 36 else 44
  }

  /** The processor's tables undo the assembler's. */
  lemma TablesUndone(n: nat)
    requires n < 14
    ensures LOAD_MAP[n] < 16 && TEST_MAP[n] < 16 && PSetMap(LOAD_MAP[n]) == n && PTestMap(TEST_MAP[n]) == n
  {
  }

  /** A column puts the pointer beyond the register exactly when the assembler never writes it; the others are the
      columns written for the value they load. */
  lemma UnwrittenColumns(a: nat)
    requires a < 16
    ensures PSetMap(a) == 14 <==> forall n | 0 <= n < 14 :: LOAD_MAP[n] != a
    ensures PSetMap(a) < 14 ==> LOAD_MAP[PSetMap(a)] == a
  {
    if PSetMap(a) != 14 {
      assert LOAD_MAP[PSetMap(a)] == a;
    }
  }

  lemma PointerColumns(a: nat)
    requires a < 16
    ensures Decode(64 * a + 60) == SetP && Decode(64 * a + 36) == TestPEq && Decode(64 * a + 44) == TestPNe
    ensures Decode(464) == IncP && Decode(400) == DecP
  {
    hide Decode;
    Column(a, 60);
    Column(a, 36);
    Column(a, 44);
    Column(7, 16);
    Column(6, 16);
  }

  /** A word by its row and column. */
  lemma Column(a: nat, col: nat)
    requires col < 64 && col % 4 == 0
    ensures Decode(64 * a + col) == DecodeMisc(a, col)
  {
    hide DecodeMisc;
    Numbers.DivModUnique(64 * a + col, 64, a, col);
    Numbers.DivModUnique(64 * a + col, 4, 16 * a + col / 4, 0);
  }

  lemma PointerDecoded(n: nat, equal: bool)
    requires n < 14
    ensures Decode(PointerWord(Load(n))) == SetP && PSetMap(PointerWord(Load(n)) / 64) == n
    ensures Decode(PointerTest(n, equal)) == (if equal then TestPEq else TestPNe)
    ensures PTestMap(PointerTest(n, equal) / 64) == n
    ensures Decode(PointerWord(Increment)) == IncP && Decode(PointerWord(Decrement)) == DecP
  {
    hide Decode, PSetMap, PTestMap;
    TablesUndone(n);
    PointerColumns(LOAD_MAP[n]);
    PointerColumns(TEST_MAP[n]);
    RowOf(LOAD_MAP[n], 60);
    RowOf(TEST_MAP[n], if equal then 36 else 44);
  }

  lemma RowOf(a: nat, col: nat)
    requires col < 64
    ensures (64 * a + col) / 64 == a
  {
    Numbers.DivModUnique(64 * a + col, 64, a, col);
  }

  /** The pointer counts modulo 14. */
  function Pointed(s: PointerStatement, p: nat): nat {
    match s
    case Load(n) => n
    case Increment => if p >= 13 then 0 else p + 1
    case Decrement => if p == 0 then 13 else p - 1
  }

  /** How the last two statements moved the pointer. */
  function Moved(s: PointerStatement): int {
    match s case Load(_) => 0 case Increment => 1 case Decrement => -1
  }

  lemma PointerStep(m: Act, w: Word, k: Model, x: Inputs, s: PointerStatement)
    requires Inv(m) && ValidInputs(x) && m.ctl.inst == Normal && Writable(s) && Number(w) == PointerWord(s)
    ensures var t := CycleOn(m, w, k, x);
            && GoesOn(m, t) && t.fl.p == Pointed(s, m.fl.p) && !t.fl.carry
            && t.fl.pChange == [Moved(s), m.fl.pChange[0], m.fl.pChange[1]]
  {
    hide Decode, Number, CycleOn, Polled, Selected, PointerWord, PSetMap;
    PointerDecoded(if s.Load? then s.n else 0, true);
    FlagsCycle(m, w, k, x);
    ControlCycle(m, w, k, x);
    NextInPage(m.ctl, m.ctl.(bank := Bank(m.ctl, k), delRomFlag := false, pc := (m.ctl.pc + 1) % 4096));
  }

  /** Three tests for zero, each behind two increments, also accept one. */
  predicate Lenient(m: Act, n: nat)
    requires |m.fl.pChange| == 3
  {
    n == 0 && m.fl.p == 1 && m.fl.pChange[0] == 1 && m.fl.pChange[1] == 1
    && (m.ctl.pc == 3138 || m.ctl.pc == 3162 || m.ctl.pc == 2703)
  }

  /** `if p = n` or `if p # n`, `then go to`: the branch is taken exactly when the pointer stands at n, or does
      not, but for the lenient tests. */
  lemma PointerThenGoto(m: Act, w1: Word, w2: Word, k: Model, x1: Inputs, x2: Inputs, n: nat, equal: bool)
    requires Inv(m) && ValidInputs(x1) && ValidInputs(x2) && m.ctl.inst == Normal
    requires n < 14 && Number(w1) == PointerTest(n, equal)
    ensures Inv(CycleOn(m, w1, k, x1))
    ensures Branches(m, CycleOn(CycleOn(m, w1, k, x1), w2, k, x2), w2, (m.fl.p == n || Lenient(m, n)) == equal)
  {
    hide Decode, Number, CycleOn, PointerTest, Polled, Branches, PTestMap;
    PointerDecoded(n, equal);
    FlagsCycle(m, w1, k, x1);
    TestThen(m, w1, w2, k, x1, x2, (m.fl.p == n || Lenient(m, n)) == equal);
  }

  /** Two increments and a test, from any pointer: where the lenient tests differ. */
  lemma IncrementsThenTest(m: Act, ws: seq<Word>, k: Model, x: Inputs, n: nat)
    requires Inv(m) && ValidInputs(x) && m.ctl.inst == Normal && |ws| == 4 && n < 14
    requires Number(ws[0]) == PointerWord(Increment) && Number(ws[1]) == PointerWord(Increment)
    requires Number(ws[2]) == PointerTest(n, true)
    ensures var t := CycleOn(m, ws[0], k, x);
            Inv(t) && var u := CycleOn(t, ws[1], k, x);
            Inv(u) && var v := CycleOn(u, ws[2], k, x);
            && Inv(v)
            && var p := Pointed(Increment, Pointed(Increment, m.fl.p));
            var lenient := n == 0 && p == 1 && (u.ctl.pc == 3138 || u.ctl.pc == 3162 || u.ctl.pc == 2703);
            Branches(u, CycleOn(v, ws[3], k, x), ws[3], p == n || lenient)
  {
    hide Number, CycleOn, PointerWord, PointerTest, Branches, Inv, Pointed;
    CycleKeepsInv(m, ws[0], k, x);
    PointerStep(m, ws[0], k, x, Increment);
    var t := CycleOn(m, ws[0], k, x);
    CycleKeepsInv(t, ws[1], k, x);
    PointerStep(t, ws[1], k, x, Increment);
    PointerThenGoto(CycleOn(t, ws[1], k, x), ws[2], ws[3], k, x, x, n, true);
    InvSizes(m);
    InvSizes(t);
  }

  lemma InvSizes(m: Act)
    requires Inv(m)
    ensures |m.fl.pChange| == 3 && |m.fl.s| == 16
  {
  }
}
