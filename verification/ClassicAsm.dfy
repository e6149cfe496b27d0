/** The Classic processor against its assembler, src/casm_y.y and src/casm_l.l: the words written for the
    statements of a program, carried out by the processor, do what the statements say. */
module ClassicAsm {
  import opened DigitOps
  import opened ClassicSpec

  // ---------- fields ----------

  datatype FieldName = FieldP | FieldM | FieldX | FieldW | FieldWP | FieldMS | FieldXS | FieldS

  /** The code of a field name in a statement. */
  function FieldCode(f: FieldName): (code: nat)
    ensures code < 8
  {
    match f
    case FieldP => 0
    case FieldM => 1
    case FieldX => 2
    case FieldW => 3
    case FieldWP => 4
    case FieldMS => 5
    case FieldXS => 6
    case FieldS => 7
  }

  /** The digits a field name stands for: the one at the pointer, mantissa, exponent, word, word up to the
      pointer, mantissa and sign, exponent sign, and sign. */
  predicate InField(f: FieldName, p: nat, i: nat) {
    match f
    case FieldP => i == p
    case FieldM => 3 <= i <= 12
    case FieldX => i <= 2
    case FieldW => true
    case FieldWP => i <= p
    case FieldMS => 3 <= i
    case FieldXS => i == 2
    case FieldS => i == 13
  }

  /** The processor works on exactly the digits of the field named, wherever the pointer stands. */
  lemma FieldNames(f: FieldName, p: nat, i: nat)
    requires i < 14
    ensures var (first, last) := FieldOf(FieldCode(f), p); first <= i <= last <==> InField(f, p, i)
  {
  }

  // ---------- arithmetic statements ----------

  /** The word for an arithmetic statement, field aside. */
  function ArithBase(op: ArithOp): Option<nat> {
    match op
    case IfZero(x) => if x == B then Some(0x002) else if x == C then Some(0x1a2) else None
    case IfNonzero(x) => if x == A then Some(0x262) else if x == C then Some(0x062) else None
    case Clear(x) => (match x case A => Some(0x2e2) case B => Some(0x022) case C => Some(0x0c2))
    case Copy(x, y) =>
      if x == B && y == A then Some(0x122) else if x == C && y == B then Some(0x082)
      else if x == A && y == C then Some(0x182) else None
    case Exchange(x, y) =>
      if x == A && y == B then Some(0x322) else if x == B && y == C then Some(0x222)
      else if x == A && y == C then Some(0x3a2) else None
    case ShiftLeft(x) => if x == A then Some(0x102) else None
    case ShiftRight(x) => (match x case A => Some(0x2c2) case B => Some(0x282) case C => Some(0x242))
    case Add(dest, x, y, one) => if one then IncrementBase(dest, x, y) else AddBase(dest, x, y)
    case Subtract(dest, x, y, one) => if one then DecrementBase(dest, x, y) else SubtractBase(dest, x, y)
  }

  function AddBase(dest: Name, x: Name, y: Option<Name>): Option<nat> {
    if dest == A && x == A && y == Some(B) then Some(0x382)
    else if dest == A && x == A && y == Some(C) then Some(0x3c2)
    else if dest == C && x == A && y == Some(C) then Some(0x1c2)
    else if dest == C && x == C && y == Some(C) then Some(0x2a2)
    else None
  }

  function IncrementBase(dest: Name, x: Name, y: Option<Name>): Option<nat> {
    if dest == A && x == A && y == None then Some(0x3e2)
    else if dest == C && x == C && y == None then Some(0x1e2)
    else None
  }

  /** Without a destination the statement is a comparison: if a >= b, if a >= c. */
  function SubtractBase(dest: Option<Name>, x: Option<Name>, y: Option<Name>): Option<nat> {
    if dest == None && x == Some(A) && y == Some(B) then Some(0x202)
    else if dest == None && x == Some(A) && y == Some(C) then Some(0x042)
    else if dest == Some(A) && x == Some(A) && y == Some(B) then Some(0x302)
    else if dest == Some(A) && x == Some(A) && y == Some(C) then Some(0x342)
    else if dest == Some(C) && x == Some(A) && y == Some(C) then Some(0x142)
    else if dest == Some(C) && x == None && y == Some(C) then Some(0x0a2)
    else None
  }

  function DecrementBase(dest: Option<Name>, x: Option<Name>, y: Option<Name>): Option<nat> {
    if dest == Some(A) && x == Some(A) && y == None then Some(0x362)
    else if dest == Some(C) && x == Some(C) && y == None then Some(0x162)
    else if dest == Some(C) && x == None && y == Some(C) then Some(0x0e2)
    else None
  }

  /** The word the assembler writes for an arithmetic statement over a field. */
  function ArithStatement(base: nat, f: FieldName): nat {
    4 * FieldCode(f) + base
  }

  /** The processor's table of arithmetic operations is the assembler's: the word of every statement is
      decoded as that statement over that field, and every arithmetic word is the word of a statement. */
  lemma StatementDecoded(op: ArithOp, f: FieldName)
    requires ArithBase(op).Some?
    ensures var o := ArithStatement(ArithBase(op).value, f);
            o < 1024 && Decode(o) == ArithField && ArithOf(o / 32) == op && o / 4 % 8 == FieldCode(f)
  {
    hide FieldCode, ArithBase, ArithOf, Decode;
    BaseDecoded(op);
    WordParts(ArithBase(op).value / 32, FieldCode(f));
  }

  lemma WordParts(k: nat, code: nat)
    requires k < 32 && code < 8
    ensures var o := 4 * code + (k * 32 + 2);
            o < 1024 && o / 32 == k && o / 4 % 8 == code && Decode(o) == ArithField
  {
    hide DecodeSpecial;
  }

  lemma BaseDecoded(op: ArithOp)
    requires ArithBase(op).Some?
    ensures var b := ArithBase(op).value; b % 32 == 2 && b < 1024 && ArithOf(b / 32) == op
  {
    match op
    case IfZero(_) =>
    case IfNonzero(_) =>
    case Clear(_) =>
    case Copy(_, _) =>
    case Exchange(_, _) =>
    case ShiftLeft(_) =>
    case ShiftRight(_) =>
    case Add(_, _, _, _) =>
    case Subtract(_, _, _, _) =>
  }

  function FieldOfCode(code: nat): (f: FieldName)
    requires code < 8
    ensures FieldCode(f) == code
  {
    match code
    case 0 => FieldP
    case 1 => FieldM
    case 2 => FieldX
    case 3 => FieldW
    case 4 => FieldWP
    case 5 => FieldMS
    case 6 => FieldXS
    case _ => FieldS
  }

  lemma EveryArithWord(o: Word)
    requires Decode(o) == ArithField
    ensures exists op, f :: ArithBase(op).Some? && o == ArithStatement(ArithBase(op).value, f)
  {
    hide ArithBase, ArithOf, FieldCode;
    AllStatements(o / 32);
    NotArithmetic(o);
    var f := FieldOfCode(o / 4 % 8);
    assert o == ArithStatement(ArithBase(ArithOf(o / 32)).value, f);
  }

  lemma AllStatements(k: nat)
    requires k < 32
    ensures ArithBase(ArithOf(k)) == Some(k * 32 + 2)
  {
  }

  lemma NotArithmetic(o: Word)
    requires Decode(o) == ArithField
    ensures o % 4 == 2
  {
    NoSpecialArith(o / 64, o % 64);
    hide DecodeSpecial;
  }

  lemma NoSpecialArith(hi: nat, lo: nat)
    ensures DecodeSpecial(hi, lo) != ArithField
  {
  }

  // ---------- conditional branches ----------

  /** What lets the branch behind an arithmetic statement be taken: the condition of an if statement, no carry
      out of a sum, no borrow out of a difference. */
  predicate Succeeds(m: Accumulators, op: ArithOp, first: nat, last: nat)
    requires first <= last ==> last < WSIZE
  {
    match op
    case IfZero(x) => Num(m, x, first, last) == 0
    case IfNonzero(x) => Num(m, x, first, last) >= 1
    case Add(_, x, y, one) =>
      Num(m, x, first, last) + OperandValue(m, y, first, last) + Bit(one) < Pow(10, FieldLength(first, last))
    case Subtract(_, x, y, one) =>
      OperandValue(m, x, first, last) >= OperandValue(m, y, first, last) + Bit(one)
    case _ => true
  }

  function GotoWord(target: nat): (o: Word)
    requires target < 256
  {
    4 * target + 3
  }

  lemma CarryTells(m: Accumulators, op: ArithOp, first: nat, last: nat)
    requires DecimalAcc(m) && !m.carry && (first <= last ==> last < WSIZE)
    ensures Arith(m, op, first, last).carry <==> !Succeeds(m, op, first, last)
  {
    hide Num, OperandValue, Arith, DecimalAcc, Pow;
    ArithMeaning(m, op, first, last);
    match op
    case Add(dest, _, _, _) =>
      SumBelow(m, op, first, last);
    case ShiftLeft(_) =>
    case _ =>
  }

  lemma SumBelow(m: Accumulators, op: ArithOp, first: nat, last: nat)
    requires DecimalAcc(m) && (first <= last ==> last < WSIZE) && op.Add?
    ensures Num(Arith(m, op, first, last), op.dest, first, last) < Pow(10, FieldLength(first, last))
  {
    hide Arith, Value, Pow, Decimal;
    ArithDecimal(m, op, first, last);
    var t := Arith(m, op, first, last);
    SourceDecimal(t, Some(op.dest), first, last);
    ValueBound(Digits14(t, op.dest, first, last), 10);
  }

  /** A goto goes on after the words before it, or to its target when nothing set the carry. */
  lemma GotoStep(t: Machine, target: nat, twoDigit: bool)
    requires Inv(t) && target < 256
    ensures Step(t, GotoWord(target), twoDigit).at.pc == if t.acc.carry then (t.at.pc + 1) % 256 else target
  {
    hide Decimal, Polled;
    assert Decode(GotoWord(target)) == Goto;
    hide Decode;
  }

  /** A word that computes or moves registers goes on behind it. */
  lemma ArithStep(m: Machine, o: Word, twoDigit: bool)
    requires Inv(m) && Decode(o) == ArithField
    ensures Inv(Step(m, o, twoDigit))
    ensures var t := Step(m, o, twoDigit);
            t.at.pc == (m.at.pc + 1) % 256 && t.acc == ArithWord(m.acc.(carry := false), o, m.p) && t.p == m.p
  {
    StepKeepsInv(m, o, twoDigit);
    hide Decode, Decimal, Polled, ArithWord;
  }

  /** The branch behind an arithmetic statement, `then go to`, `if no carry go to` or `go to` alike, is taken
      exactly when the statement succeeds: if it tests, when its condition holds of the numbers in the field. */
  lemma ArithThenGoto(m: Machine, op: ArithOp, f: FieldName, target: nat, twoDigit: bool)
    requires Inv(m) && ArithBase(op).Some? && target < 256
    ensures ArithStatement(ArithBase(op).value, f) < 1024
    ensures var t := Step(m, ArithStatement(ArithBase(op).value, f), twoDigit);
            var (first, last) := FieldOf(FieldCode(f), m.p);
            && Inv(t) && t.acc == Arith(m.acc.(carry := false), op, first, last)
            && Step(t, GotoWord(target), twoDigit).at.pc
               == if Succeeds(m.acc, op, first, last) then target else (m.at.pc + 2) % 256
  {
    hide Num, OperandValue, Arith, Decimal, Pow, Step, ArithOf, ArithBase, Decode, FieldOf, FieldCode, Succeeds;
    StatementDecoded(op, f);
    var o: Word := ArithStatement(ArithBase(op).value, f);
    ArithStep(m, o, twoDigit);
    var (first, last) := FieldOf(FieldCode(f), m.p);
    var acc := m.acc.(carry := false);
    CarryTells(acc, op, first, last);
    SameNumbers(m.acc, op, first, last);
    GotoStep(Step(m, o, twoDigit), target, twoDigit);
  }

  lemma SameNumbers(m: Accumulators, op: ArithOp, first: nat, last: nat)
    requires first <= last ==> last < WSIZE
    ensures Succeeds(m.(carry := false), op, first, last) <==> Succeeds(m, op, first, last)
  {
    hide Value, Pow, Field;
  }

  // ---------- status bits ----------

  /** Addresses in a ROM count modulo 256. */
  lemma Onward(pc: nat, k: nat)
    ensures ((pc + 1) % 256 + k) % 256 == (pc + k + 1) % 256
  {
  }

  lemma PolledAt(m: Machine, n: nat)
    requires |m.s| == SSIZE && |m.ext| == 2 && n < 12
    ensures Polled(m.s, m.keyFlag, m.ext)[n] == (m.s[n] || HeldSet(m, n))
  {
  }

  lemma Sizes(m: Machine)
    requires Inv(m)
    ensures |m.s| == SSIZE && |m.ext| == 2 && m.p < 16 && AddressInRange(m.at)
  {
  }

  /** A word that works on status bits, pointer or display leaves everything else alone, and goes on behind it. */
  lemma PanelStep(m: Machine, o: Word, twoDigit: bool)
    requires |m.s| == SSIZE && |m.ext| == 2 && !Branches(Decode(o)) && !Transfers(Decode(o))
    ensures var v := PanelOp(Panel(m.p, false, Polled(m.s, m.keyFlag, m.ext), m.display), Decode(o), o / 64);
            var t := Step(m, o, twoDigit);
            && t.s == v.s && t.p == v.p && t.display == v.display && t.acc == m.acc.(carry := v.carry)
            && t.at.pc == (m.at.pc + 1) % 256 && t.keyFlag == m.keyFlag && t.ext == m.ext
            && t.d == m.d && t.e == m.e && t.f == m.f && t.m == m.m && t.ramAddr == m.ramAddr && t.ram == m.ram
  {
    hide Decode, PanelOp, Polled, Branches, Transfers;
  }

  /** What keeps a status bit set from outside: a held key bit 0, the two external flags bits 3 and 11. */
  predicate HeldSet(m: Machine, n: nat)
    requires |m.ext| == 2
  {
    (n == 0 && m.keyFlag) || (n == 3 && m.ext[0]) || (n == 11 && m.ext[1])
  }

  /** `1 -> s n`, `0 -> s n`, and the test `if s n # 1`. */
  function StatusStatement(n: nat, val: bool): (o: Word)
    requires n < 12
  {
    64 * n + if val then 0x004 else 0x024
  }

  function StatusTest(n: nat): (o: Word)
    requires n < 12
  {
    64 * n + 0x014
  }

  const CLEAR_STATUS: Word := 0x034

  lemma StatusDecoded(n: nat, val: bool)
    requires n < 12
    ensures Decode(StatusStatement(n, val)) == (if val then SetS else ClrS) && Decode(StatusTest(n)) == TestS
    ensures StatusStatement(n, val) / 64 == n && StatusTest(n) / 64 == n && Decode(CLEAR_STATUS) == ClearS
  {
  }

  /** A status statement changes its own bit; every other bit is as it was, or set from outside. */
  lemma StatusStep(m: Machine, n: nat, val: bool, k: nat, twoDigit: bool)
    requires Inv(m) && n < 12 && k < 12
    ensures var t := Step(m, StatusStatement(n, val), twoDigit);
            && Inv(t) && t.at.pc == (m.at.pc + 1) % 256 && t.keyFlag == m.keyFlag && t.ext == m.ext
            && t.s[k] == if k == n then val else m.s[k] || HeldSet(m, k)
  {
    hide Decode, Step, Inv, StatusStatement;
    Sizes(m);
    StatusDecoded(n, val);
    StepKeepsInv(m, StatusStatement(n, val), twoDigit);
    Sizes(Step(m, StatusStatement(n, val), twoDigit));
    PanelStep(m, StatusStatement(n, val), twoDigit);
  }

  lemma ClearStep(m: Machine, k: nat, twoDigit: bool)
    requires Inv(m) && k < 12
    ensures var t := Step(m, CLEAR_STATUS, twoDigit);
            Inv(t) && t.at.pc == (m.at.pc + 1) % 256 && t.keyFlag == m.keyFlag && t.ext == m.ext && !t.s[k]
  {
    hide Decode, Step, Inv;
    Sizes(m);
    StatusDecoded(0, true);
    StepKeepsInv(m, CLEAR_STATUS, twoDigit);
    Sizes(Step(m, CLEAR_STATUS, twoDigit));
    PanelStep(m, CLEAR_STATUS, twoDigit);
  }

  /** `if s n # 1 then go to` branches exactly when the bit is clear, and is not set from outside. */
  lemma StatusThenGoto(m: Machine, n: nat, target: nat, twoDigit: bool)
    requires Inv(m) && n < 12 && target < 256
    ensures var t := Step(m, StatusTest(n), twoDigit);
            && Inv(t) && Step(t, GotoWord(target), twoDigit).at.pc
                         == if m.s[n] || HeldSet(m, n) then (m.at.pc + 2) % 256 else target
  {
    hide *;
    Sizes(m);
    PolledAt(m, n);
    Onward(m.at.pc, 1);
    StatusDecoded(n, true);
    StepKeepsInv(m, StatusTest(n), twoDigit);
    StatusTestPanel(Panel(m.p, false, Polled(m.s, m.keyFlag, m.ext), m.display), n);
    PanelStep(m, StatusTest(n), twoDigit);
    GotoStep(Step(m, StatusTest(n), twoDigit), target, twoDigit);
  }

  lemma StatusTestPanel(v: Panel, n: nat)
    requires |v.s| == SSIZE && n < 12
    ensures !Branches(TestS) && !Transfers(TestS) && PanelOp(v, TestS, n) == v.(carry := v.s[n])
  {
  }

  /** A bit that was set or cleared answers the test behind it, unless something outside holds it set. */
  lemma SetThenTest(m: Machine, n: nat, val: bool, target: nat, twoDigit: bool)
    requires Inv(m) && n < 12 && target < 256
    ensures var t := Step(m, StatusStatement(n, val), twoDigit);
            Inv(t) && var u := Step(t, StatusTest(n), twoDigit);
            Inv(u) && Step(u, GotoWord(target), twoDigit).at.pc
                      == if val || HeldSet(m, n) then (m.at.pc + 3) % 256 else target
  {
    hide Step, Inv, StatusStatement, StatusTest, GotoWord;
    Sizes(m);
    StatusStep(m, n, val, n, twoDigit);
    Sizes(Step(m, StatusStatement(n, val), twoDigit));
    StatusThenGoto(Step(m, StatusStatement(n, val), twoDigit), n, target, twoDigit);
  }

  // ---------- the pointer ----------

  datatype PointerStatement = Load(n: nat) | Increment | Decrement

  predicate Writable(s: PointerStatement) {
    s.Load? ==> s.n < 16
  }

  function PointerWord(s: PointerStatement): (o: Word)
    requires Writable(s)
  {
    match s
    case Load(n) => 64 * n + 0x00c
    case Increment => 0x03c
    case Decrement => 0x01c
  }

  /** The pointer counts modulo 16. */
  function Pointed(s: PointerStatement, p: nat): nat {
    match s
    case Load(n) => n
    case Increment => if p == 15 then 0 else p + 1
    case Decrement => if p == 0 then 15 else p - 1
  }

  function PointerTest(n: nat): (o: Word)
    requires n < 16
  {
    64 * n + 0x02c
  }

  lemma PointerDecoded(s: PointerStatement)
    requires Writable(s)
    ensures Decode(PointerWord(s)) == match s case Load(_) => SetP case Increment => IncP case Decrement => DecP
    ensures s.Load? ==> PointerWord(s) / 64 == s.n
  {
  }

  lemma PointerStep(m: Machine, s: PointerStatement, twoDigit: bool)
    requires Inv(m) && Writable(s)
    ensures var t := Step(m, PointerWord(s), twoDigit);
            Inv(t) && t.p == Pointed(s, m.p) && t.at.pc == (m.at.pc + 1) % 256 && t.acc == m.acc.(carry := false)
  {
    hide Decode, Step, Inv, PointerWord, Polled;
    Sizes(m);
    PointerDecoded(s);
    StepKeepsInv(m, PointerWord(s), twoDigit);
    PanelStep(m, PointerWord(s), twoDigit);
  }

  /** `if p # n then go to` branches exactly when the pointer does not stand at n. */
  lemma PointerThenGoto(m: Machine, n: nat, target: nat, twoDigit: bool)
    requires Inv(m) && n < 16 && target < 256
    ensures var t := Step(m, PointerTest(n), twoDigit);
            Inv(t) && Step(t, GotoWord(target), twoDigit).at.pc == if m.p == n then (m.at.pc + 2) % 256 else target
  {
    hide *;
    Sizes(m);
    Onward(m.at.pc, 1);
    TestDecoded(n);
    StepKeepsInv(m, PointerTest(n), twoDigit);
    PointerTested();
    PanelStep(m, PointerTest(n), twoDigit);
    PointerTestPanel(Panel(m.p, false, Polled(m.s, m.keyFlag, m.ext), m.display), n);
    GotoStep(Step(m, PointerTest(n), twoDigit), target, twoDigit);
  }

  lemma PointerTested()
    ensures !Branches(TestP) && !Transfers(TestP)
  {
  }

  lemma PointerTestPanel(v: Panel, n: nat)
    requires |v.s| == SSIZE
    ensures PanelOp(v, TestP, n) == v.(carry := v.p == n)
  {
  }

  lemma TestDecoded(n: nat)
    requires n < 16
    ensures Decode(PointerTest(n)) == TestP && PointerTest(n) / 64 == n
  {
  }

  /** A program of pointer statements. */
  function PointerRun(m: Machine, ss: seq<PointerStatement>, twoDigit: bool): (t: Option<Machine>)
    decreases |ss|
  {
    if ss == [] then Some(m)
    else if |m.s| != SSIZE || |m.ext| != 2 || !Writable(ss[0]) then None
    else PointerRun(Step(m, PointerWord(ss[0]), twoDigit), ss[1..], twoDigit)
  }

  function PointedAfter(ss: seq<PointerStatement>, p: nat): nat
    decreases |ss|
  {
    if ss == [] then p else PointedAfter(ss[1..], Pointed(ss[0], p))
  }

  /** Any program of them, and a test: it branches exactly when counting modulo 16 does not end at n. */
  lemma {:induction false} PointerProgram(m: Machine, ss: seq<PointerStatement>, n: nat, target: nat, twoDigit: bool)
    requires Inv(m) && n < 16 && target < 256 && forall s :: s in ss ==> Writable(s)
    ensures var t := PointerRun(m, ss, twoDigit);
            && t.Some? && Inv(t.value) && t.value.p == PointedAfter(ss, m.p)
            && t.value.at.pc == (m.at.pc + |ss|) % 256
            && var u := Step(t.value, PointerTest(n), twoDigit);
            Inv(u) && Step(u, GotoWord(target), twoDigit).at.pc
                      == if PointedAfter(ss, m.p) == n then (m.at.pc + |ss| + 2) % 256 else target
    decreases |ss|
  {
    hide Step, Inv, PointerTest, PointerWord, GotoWord, Pointed;
    Sizes(m);
    if ss == [] {
      PointerThenGoto(m, n, target, twoDigit);
    } else {
      assert ss[0] in ss;
      PointerStep(m, ss[0], twoDigit);
      PointerProgram(Step(m, PointerWord(ss[0]), twoDigit), ss[1..], n, target, twoDigit);
    }
  }
}
