/** What a Nut listing claims about the carry, against every run that executes the listing. */
module NutRuns {
  import DigitOps
  import opened ReturnStacks
  import opened NutSpec
  import opened NutDis

  /** The disassembler's variables after listing n instructions. The carry flag is whatever its caller left
      it at; junk plays no part in the addresses. */
  ghost function Listed(view: View, start: nat, clear: bool, n: nat): (d: Dis)
    requires start < 65536
    ensures d.addr < 65536 && (d.inst == Normal || d.inst == Selpf)
    decreases n
  {
    if n == 0 then Dis(start, Normal, clear, NoBranch, 0) else ListedNext(view, Listed(view, start, clear, n - 1))
  }

  function ListedNext(view: View, d: Dis): (e: Dis)
    requires d.addr < 65536 && (d.inst == Normal || d.inst == Selpf)
    ensures e.addr < 65536 && (e.inst == Normal || e.inst == Selpf)
  {
    Disassembled(d, view[d.addr], view[(d.addr + 1) % 65536], false)
  }

  /** How many words the first n instructions of the listing take. */
  ghost function Words(view: View, start: nat, clear: bool, n: nat): nat
    requires start < 65536
    decreases n
  {
    if n == 0 then 0
    else
      var d := Listed(view, start, clear, n - 1);
      Words(view, start, clear, n - 1) + Length(d.inst, view[d.addr])
  }

  /** An address of sixteen bits. */
  function Wrap(a: nat): nat {
    a % 65536
  }

  lemma NextListedAddress(view: View, d: Dis)
    requires d.addr < 65536 && (d.inst == Normal || d.inst == Selpf)
    ensures ListedNext(view, d).addr == Wrap(d.addr + Length(d.inst, view[d.addr]))
  {
    hide LeavesCarryClear, Op20Flow, TwoWord, Offset;
  }

  lemma {:induction false} ListedAddress(view: View, start: nat, clear: bool, n: nat)
    requires start < 65536
    ensures Listed(view, start, clear, n).addr == Wrap(start + Words(view, start, clear, n))
    decreases n
  {
    hide Wrap, ListedNext, Length, TwoWord;
    if n > 0 {
      ListedAddress(view, start, clear, n - 1);
      var d := Listed(view, start, clear, n - 1);
      NextListedAddress(view, d);
      AddWrap(start + Words(view, start, clear, n - 1), Length(d.inst, view[d.addr]));
    } else {
      WrapSmall(start);
    }
  }

  lemma WrapSmall(a: nat)
    requires a < 65536
    ensures Wrap(a) == a
  {
  }

  lemma AddWrap(a: nat, b: nat)
    ensures Wrap(Wrap(a) + b) == Wrap(a + b)
  {
  }

  lemma {:induction false} WordsGrow(view: View, start: nat, clear: bool, i: nat, j: nat)
    requires start < 65536 && i < j
    ensures Words(view, start, clear, i) < Words(view, start, clear, j)
    decreases j
  {
    hide Listed, TwoWord, ListedNext;
    if i < j - 1 {
      WordsGrow(view, start, clear, i, j - 1);
    }
  }

  /** A listing that has not gone once around the memory comes to an address only once. */
  lemma ListedOnce(view: View, start: nat, clear: bool, i: nat, j: nat)
    requires start < 65536 && Words(view, start, clear, i) < 65536 && Words(view, start, clear, j) < 65536
    requires Listed(view, start, clear, i).addr == Listed(view, start, clear, j).addr
    ensures i == j
  {
    hide *;
    ListedAddress(view, start, clear, i);
    ListedAddress(view, start, clear, j);
    SameResidue(start, Words(view, start, clear, i), Words(view, start, clear, j));
    if i < j {
      WordsGrow(view, start, clear, i, j);
    } else if j < i {
      WordsGrow(view, start, clear, j, i);
    }
  }

  lemma SameResidue(s: nat, a: nat, b: nat)
    requires s < 65536 && a < 65536 && b < 65536 && Wrap(s + a) == Wrap(s + b)
    ensures a == b
  {
  }

  // ---------- where a carry comes from ----------

  /** The test of a peripheral's flag, which gives control back. */
  ghost predicate FlagTest(m: Nut, view: View)
    requires Inv(m)
  {
    m.inst == Selpf && FirstWord(m, view) % 64 == 3
  }

  ghost predicate PowersOff(m: Nut, view: View)
    requires Inv(m)
  {
    m.inst == Normal && Decode(FirstWord(m, view)) == PowerOff
  }

  /** The operations that can leave the carry set. */
  predicate SetsCarry(o: nat) {
    Decode(o) == Test || Decode(o) == PowerOff || (Decode(o) == Arith && Carries(o / 32))
  }

  ghost predicate CanLeaveCarry(m: Nut, view: View)
    requires Inv(m)
  {
    FlagTest(m, view) || (m.inst == Normal && SetsCarry(FirstWord(m, view)))
  }

  /** Where such an instruction goes on: at the next word, or after a power off at the first one. */
  ghost function GoesOn(m: Nut, view: View): (a: nat)
    requires Inv(m)
    ensures a < 65536
  {
    if PowersOff(m, view) then 0 else Wrap(m.pc + 1)
  }

  /** The carry after an instruction: it is set exactly by a test, by arithmetic that carries, by the test of
      a peripheral's flag or by a power off, each of them as its input says. */
  lemma CarrySource(m: Nut, view: View, x: Inputs, y: Inputs)
    requires Inv(m) && ValidInputs(x) && m.awake && (m.inst == Normal || m.inst == Selpf)
    ensures var t := Instruction(m, view, x, y);
            && (t.carry <==> CanLeaveCarry(m, view) && x.carryOut)
            && (CanLeaveCarry(m, view) ==> t.pc == GoesOn(m, view) && t.inst == Normal)
  {
    if m.inst == Selpf {
      FlagTestOdd(FirstWord(m, view));
      hide Decode, Performed, Branched;
    } else if Decode(FirstWord(m, view)) == LongBranchOp {
      LongBranchRuns(m, view, x, y);
      hide Instruction, Decode, FirstWord, SecondWord, LongTarget;
    } else {
      OtherRuns(m, view, x, y);
      CarryOp(Ready(m), FirstWord(m, view), x);
      hide Instruction, Decode, FirstWord, SecondWord, Performed;
    }
  }

  lemma FlagTestOdd(o: nat)
    ensures o % 64 == 3 ==> o % 2 == 1
  {
  }

  lemma CarryOp(b: Nut, o: nat, x: Inputs)
    requires o < 1024 && b.pc < 65536 && !b.carry && b.inst == Normal && Decode(o) != LongBranchOp
    ensures var t := Performed(b, Decode(o), o, x);
            && (t.carry <==> SetsCarry(o) && x.carryOut)
            && (SetsCarry(o) ==> t.inst == Normal && t.pc == if Decode(o) == PowerOff then 0 else b.pc)
  {
    LongBranchWords(o);
    hide Decode, Offset;
  }

  lemma ArithTable(op: nat)
    requires op < 32
    ensures ArithCanCarry(op) <==> Carries(op)
  {
  }

  /** The disassembler knows all of them but the power off, which it takes for leaving the carry clear. */
  lemma SetsCarryIsShown(o: nat)
    requires o < 1024 && SetsCarry(o)
    ensures Decode(o) != PowerOff ==> !LeavesCarryClear(o) && !TwoWord(o)
  {
    LongBranchWords(o);
    TwoWordIff(o);
    ArithTable(o / 32);
    if o % 4 == 0 {
      MiscWords(o);
    }
    hide Decode, TwoWord, ArithCanCarry, Op20CanCarry;
  }

  // ---------- what the listing says ----------

  /** The instruction at the program counter is the i-th of the listing. */
  ghost predicate AsListed(m: Nut, view: View, start: nat, clear: bool, i: nat)
    requires start < 65536
  {
    Follows(Listed(view, start, clear, i), m) && Words(view, start, clear, i) < 65536
  }

  /** What the listing says of the carry, wherever it lists this instruction behind its first one, is true. */
  ghost predicate CarryAsShown(t: Nut, view: View, start: nat, clear: bool)
    requires start < 65536
  {
    forall j: nat :: j > 0 && AsListed(t, view, start, clear, j) && Listed(view, start, clear, j).clear ==> !t.carry
  }

  ghost predicate Truthful(m: Nut, view: View, x: Inputs, y: Inputs, start: nat, clear: bool)
    requires Inv(m) && ValidInputs(x) && start < 65536
  {
    CarryAsShown(Instruction(m, view, x, y), view, start, clear)
  }

  /** The listing comes to an address behind its first instruction, in the normal state, and shows the carry
      clear there. */
  ghost predicate ShownClear(view: View, start: nat, clear: bool, a: nat)
    requires start < 65536
  {
    exists j: nat :: j > 0 && ClearAt(view, start, clear, a, j)
  }

  ghost predicate ClearAt(view: View, start: nat, clear: bool, a: nat, j: nat)
    requires start < 65536
  {
    var d := Listed(view, start, clear, j);
    d.addr == a && d.inst == Normal && d.clear && Words(view, start, clear, j) < 65536
  }

  /** The one way for a listing to be wrong about the carry: it is shown clear at the word where an
      instruction that can leave it set goes on. */
  ghost predicate Misled(m: Nut, view: View, start: nat, clear: bool)
    requires Inv(m) && start < 65536
  {
    CanLeaveCarry(m, view) && ShownClear(view, start, clear, GoesOn(m, view))
  }

  lemma ClearWhere(t: Nut, view: View, start: nat, clear: bool, j: nat)
    requires start < 65536 && t.inst == Normal
    ensures ClearAt(view, start, clear, t.pc, j)
            <==> AsListed(t, view, start, clear, j) && Listed(view, start, clear, j).clear
  {
    hide Listed, Words;
  }

  lemma TruthfulUnlessMisled(m: Nut, view: View, x: Inputs, y: Inputs, start: nat, clear: bool)
    requires Inv(m) && ValidInputs(x) && m.awake && (m.inst == Normal || m.inst == Selpf) && start < 65536
    requires !Misled(m, view, start, clear)
    ensures Truthful(m, view, x, y, start, clear)
  {
    hide Instruction, AsListed, Listed, Words, Inv, CanLeaveCarry, GoesOn, ClearAt;
    var t := Instruction(m, view, x, y);
    CarrySource(m, view, x, y);
    if t.carry {
      forall j: nat | j > 0 && AsListed(t, view, start, clear, j)
        ensures !Listed(view, start, clear, j).clear
      {
        ClearWhere(t, view, start, clear, j);
      }
    }
  }

  lemma MisledIsUntruthful(m: Nut, view: View, x: Inputs, y: Inputs, start: nat, clear: bool)
    requires Inv(m) && ValidInputs(x) && m.awake && (m.inst == Normal || m.inst == Selpf) && start < 65536
    requires Misled(m, view, start, clear) && x.carryOut
    ensures !Truthful(m, view, x, y, start, clear)
  {
    hide Instruction, AsListed, Listed, Words, Inv, CanLeaveCarry, GoesOn, ClearAt;
    var t := Instruction(m, view, x, y);
    CarrySource(m, view, x, y);
    var j: nat :| j > 0 && ClearAt(view, start, clear, GoesOn(m, view), j);
    ClearWhere(t, view, start, clear, j);
  }

  /** For every state, in step with the listing or not: whatever the inputs of an instruction, the listing is
      right about the carry it leaves, unless the state is misled. */
  lemma ListedCarryIff(m: Nut, view: View, y: Inputs, start: nat, clear: bool)
    requires Inv(m) && m.awake && (m.inst == Normal || m.inst == Selpf) && start < 65536
    ensures (forall x | ValidInputs(x) :: Truthful(m, view, x, y, start, clear)) <==> !Misled(m, view, start, clear)
  {
    hide Truthful, Misled, Inv;
    if Misled(m, view, start, clear) {
      var x := Inputs(true, 0, 0);
      MisledIsUntruthful(m, view, x, y, start, clear);
    } else {
      forall x | ValidInputs(x) ensures Truthful(m, view, x, y, start, clear) {
        TruthfulUnlessMisled(m, view, x, y, start, clear);
      }
    }
  }

  lemma ListedHere(m: Nut, view: View, start: nat, clear: bool, i: nat)
    requires Inv(m) && start < 65536 && AsListed(m, view, start, clear, i)
    ensures var d := Listed(view, start, clear, i);
            d.addr == m.pc && d.inst == m.inst && view[d.addr] == FirstWord(m, view)
                && (m.inst == Normal || m.inst == Selpf)
            && Words(view, start, clear, i) < 65536
  {
    hide Listed, Words;
  }

  lemma ListedStep(view: View, start: nat, clear: bool, n: nat)
    requires start < 65536 && !TwoWord(view[Listed(view, start, clear, n).addr])
    ensures Listed(view, start, clear, n + 1) == ListedNext(view, Listed(view, start, clear, n))
    ensures Words(view, start, clear, n + 1) == Words(view, start, clear, n) + 1
  {
    hide ListedNext, TwoWord;
  }

  lemma NextListed(view: View, d: Dis)
    requires d.addr < 65536 && d.inst == Normal && !TwoWord(view[d.addr])
    ensures ListedNext(view, d).addr == Wrap(d.addr + 1)
    ensures ListedNext(view, d).clear <==> LeavesCarryClear(view[d.addr])
  {
    hide LeavesCarryClear, TwoWord, Op20Flow;
  }

  /** A listing that has just gone around stands at its first address again. */
  lemma OnceAround(view: View, start: nat, clear: bool, i: nat, j: nat)
    requires start < 65536 && Words(view, start, clear, i) == 65536 && 0 < j && Words(view, start, clear, j) < 65536
    ensures Listed(view, start, clear, i).addr != Listed(view, start, clear, j).addr
  {
    hide *;
    NoWords(view, start, clear);
    ListedAddress(view, start, clear, i);
    ListedAddress(view, start, clear, j);
    WordsGrow(view, start, clear, 0, j);
    NotAround(start, Words(view, start, clear, j), Words(view, start, clear, i));
  }

  lemma NoWords(view: View, start: nat, clear: bool)
    requires start < 65536
    ensures Words(view, start, clear, 0) == 0
  {
  }

  lemma NotAround(s: nat, a: nat, b: nat)
    requires s < 65536 && 0 < a < 65536 && b == 65536
    ensures Wrap(s + a) != Wrap(s + b)
  {
  }

  /** In step with the listing only two kinds of instruction mislead it: the test of a peripheral's flag, and
      a power off when the listing comes to the first word and shows the carry clear there. */
  lemma MisledInStep(m: Nut, view: View, start: nat, clear: bool, i: nat)
    requires Inv(m) && start < 65536 && AsListed(m, view, start, clear, i)
    ensures Misled(m, view, start, clear)
            <==> (FlagTest(m, view) && Words(view, start, clear, i + 1) < 65536)
                 || (PowersOff(m, view) && ShownClear(view, start, clear, 0))
  {
    hide *;
    ListedHere(m, view, start, clear, i);
    MisledKinds(m, view, start, clear);
    if FlagTest(m, view) {
      PeripheralListed(view, start, clear, i);
      NextShown(view, start, clear, i, m.pc);
    } else if m.inst == Normal && SetsCarry(FirstWord(m, view)) && !PowersOff(m, view) {
      SetsCarryIsShown(FirstWord(m, view));
      NextListed(view, Listed(view, start, clear, i));
      ListedStep(view, start, clear, i);
      StaysNormal(view, Listed(view, start, clear, i));
      NextShown(view, start, clear, i, m.pc);
    }
  }

  lemma MisledKinds(m: Nut, view: View, start: nat, clear: bool)
    requires Inv(m) && start < 65536
    ensures Misled(m, view, start, clear)
            <==> if PowersOff(m, view) then ShownClear(view, start, clear, 0)
                 else (FlagTest(m, view) || (m.inst == Normal && SetsCarry(FirstWord(m, view))))
                      && ShownClear(view, start, clear, Wrap(m.pc + 1))
    ensures PowersOff(m, view) <==> m.inst == Normal && Decode(FirstWord(m, view)) == PowerOff
    ensures FlagTest(m, view) <==> m.inst == Selpf && FirstWord(m, view) % 64 == 3
  {
    hide ShownClear, Decode, FirstWord, Wrap;
  }

  lemma StaysNormal(view: View, d: Dis)
    requires d.addr < 65536 && d.inst == Normal && SetsCarry(view[d.addr])
    ensures ListedNext(view, d).inst == Normal
  {
    SetsNoSelect(view[d.addr]);
    hide SetsCarry, LeavesCarryClear, TwoWord, Op20Flow;
  }

  lemma SetsNoSelect(o: nat)
    requires o < 1024 && SetsCarry(o)
    ensures o % 4 != 0 || o % 64 != 0x24
  {
    if o % 4 == 0 {
      MiscWords(o);
    }
    hide Decode, LeavesCarryClear;
  }

  /** Whether the carry is shown clear at the next word, when that is the next instruction. */
  lemma NextShown(view: View, start: nat, clear: bool, i: nat, pc: nat)
    requires start < 65536 && Words(view, start, clear, i) < 65536
    requires Words(view, start, clear, i + 1) == Words(view, start, clear, i) + 1
    requires Listed(view, start, clear, i + 1).addr == Wrap(pc + 1) && Listed(view, start, clear, i + 1).inst == Normal
    ensures ShownClear(view, start, clear, Wrap(pc + 1))
            <==> Listed(view, start, clear, i + 1).clear && Words(view, start, clear, i + 1) < 65536
  {
    hide Listed, Words, Wrap;
    if Words(view, start, clear, i + 1) < 65536 {
      if Listed(view, start, clear, i + 1).clear {
        assert ClearAt(view, start, clear, Wrap(pc + 1), i + 1);
      } else if ShownClear(view, start, clear, Wrap(pc + 1)) {
        var j: nat :| j > 0 && ClearAt(view, start, clear, Wrap(pc + 1), j);
        ListedOnce(view, start, clear, i + 1, j);
      }
    } else if ShownClear(view, start, clear, Wrap(pc + 1)) {
      var j: nat :| j > 0 && ClearAt(view, start, clear, Wrap(pc + 1), j);
      OnceAround(view, start, clear, i + 1, j);
    }
  }

  /** Behind a flag test the listing always shows the carry clear. */
  lemma PeripheralListed(view: View, start: nat, clear: bool, i: nat)
    requires start < 65536 && Listed(view, start, clear, i).inst == Selpf
    ensures var d, e := Listed(view, start, clear, i), Listed(view, start, clear, i + 1);
            && e == ListedNext(view, d) && e.clear && e.addr == Wrap(d.addr + 1)
            && (view[d.addr] % 64 == 3 ==> e.inst == Normal)
    ensures Words(view, start, clear, i + 1) == Words(view, start, clear, i) + 1
  {
    PeripheralNext(view, Listed(view, start, clear, i));
    hide ListedNext, TwoWord;
  }

  lemma PeripheralNext(view: View, d: Dis)
    requires d.addr < 65536 && d.inst == Selpf
    ensures var e := ListedNext(view, d);
            e.clear && e.addr == Wrap(d.addr + 1) && (view[d.addr] % 64 == 3 ==> e.inst == Normal)
  {
    FlagTestOdd(view[d.addr]);
  }

  /** The exception is real: the test of a peripheral's flag may leave the carry set, control comes back, and
      the listing says that the carry is clear. */
  lemma PeripheralTestMissed(m: Nut, view: View, x: Inputs, y: Inputs, d: Dis, junk: bool)
    requires Inv(m) && ValidInputs(x) && m.awake && m.inst == Selpf && Follows(d, m) && FirstWord(m, view) % 64 == 3
    requires x.carryOut
    ensures var t, e := Instruction(m, view, x, y), Disassembled(d, FirstWord(m, view), SecondWord(m, view), junk);
            t.inst == Normal && t.carry && e.clear && Follows(e, t)
  {
    assert FirstWord(m, view) % 2 == 1;
  }

  /** The listing shows a jump without a condition, long or short. */
  ghost predicate ShownUnconditional(t: Nut, view: View, d: Dis)
    requires Inv(t) && (d.inst == Normal || d.inst == Selpf)
  {
    && t.inst == Normal && (FirstWord(t, view) % 4 == 1 || FirstWord(t, view) % 4 == 3)
    && Disassembled(d, FirstWord(t, view), SecondWord(t, view), false).flow == UncondBranch
  }

  /** Where what the listing says of the carry is true, a jump it shows as unconditional is taken. */
  lemma ShownJumpTaken(t: Nut, view: View, z: Inputs, w: Inputs, start: nat, clear: bool, j: nat)
    requires Inv(t) && ValidInputs(z) && t.awake && start < 65536 && j > 0
    requires AsListed(t, view, start, clear, j) && CarryAsShown(t, view, start, clear)
    ensures var d := Listed(view, start, clear, j);
            ShownUnconditional(t, view, d)
            ==> Instruction(t, view, z, w).pc == Disassembled(d, FirstWord(t, view), SecondWord(t, view), false).target
  {
    hide Instruction, Disassembled, FirstWord, SecondWord, Inv, Words;
    var d := Listed(view, start, clear, j);
    if ShownUnconditional(t, view, d) {
      if FirstWord(t, view) % 4 == 1 {
        JumpShown(t, view, z, w, d);
      } else {
        ShortJumpShown(t, view, z, w, d);
      }
    }
  }

  lemma JumpShown(t: Nut, view: View, z: Inputs, w: Inputs, d: Dis)
    requires Inv(t) && ValidInputs(z) && t.awake && Follows(d, t) && t.inst == Normal
    requires FirstWord(t, view) % 4 == 1 && (d.clear ==> !t.carry)
    requires Disassembled(d, FirstWord(t, view), SecondWord(t, view), false).flow == UncondBranch
    ensures Instruction(t, view, z, w).pc == Disassembled(d, FirstWord(t, view), SecondWord(t, view), false).target
  {
    LongBranchWords(FirstWord(t, view));
    LongBranchAgrees(t, view, z, w, d, false);
    hide Instruction, FirstWord, SecondWord, Decode, LeavesCarryClear, Leaves;
  }

  lemma ShortJumpShown(t: Nut, view: View, z: Inputs, w: Inputs, d: Dis)
    requires Inv(t) && ValidInputs(z) && t.awake && Follows(d, t) && t.inst == Normal
    requires FirstWord(t, view) % 4 == 3 && (d.clear ==> !t.carry)
    requires Disassembled(d, FirstWord(t, view), SecondWord(t, view), false).flow == UncondBranch
    ensures Instruction(t, view, z, w).pc == Disassembled(d, FirstWord(t, view), SecondWord(t, view), false).target
  {
    LongBranchWords(FirstWord(t, view));
    DecodersAgree(t, view, z, w, d, false);
    hide Instruction, FirstWord, SecondWord, Decode, LeavesCarryClear, LongTarget, Op20Flow, Offset;
  }

  // ---------- runs ----------

  /** What can happen: an instruction with the inputs of its cycles, which does nothing while the processor
      sleeps; something wakes it; or a reset. */
  datatype Event = Execute(x: Inputs, y: Inputs) | Wake | Reset

  ghost predicate AllValid(es: seq<Event>) {
    forall i :: 0 <= i < |es| ==> ValidEvent(es[i])
  }

  predicate ValidEvent(e: Event) {
    e.Execute? ==> ValidInputs(e.x) && ValidInputs(e.y)
  }

  function Next(m: Nut, view: View, e: Event): (t: Nut)
    requires Inv(m) && ValidEvent(e)
    ensures Inv(t)
  {
    match e
    case Execute(x, y) =>
      InstructionKeepsInv(m, view, x, y);
      Instruction(m, view, x, y)
    case Wake => m.(awake := true)
    case Reset => AfterReset(m)
  }

  /** The state after some events. */
  ghost function After(m: Nut, view: View, es: seq<Event>): (t: Nut)
    requires Inv(m) && AllValid(es)
    ensures Inv(t)
    decreases |es|
  {
    if es == [] then m else Next(After(m, view, es[..|es| - 1]), view, es[|es| - 1])
  }

  /** The program counter stands at an instruction of the listing. */
  ghost predicate OnTheList(t: Nut, view: View, start: nat, clear: bool)
    requires start < 65536
  {
    exists j: nat :: AsListed(t, view, start, clear, j)
  }

  /** An instruction, the i-th of the listing: if it leaves the sequence of words, or the listing ends with
      it, it arrives at an instruction of the listing; it is not the test of a peripheral's flag with an
      instruction listed behind it; and if it is a power off the carry is not shown clear at the first word. */
  ghost predicate StepKeeps(s: Nut, t: Nut, view: View, start: nat, clear: bool, i: nat)
    requires Inv(s) && start < 65536
  {
    && (Redirects(s, FirstWord(s, view), SecondWord(s, view)) || Words(view, start, clear, i + 1) >= 65536
        ==> OnTheList(t, view, start, clear))
    && !(FlagTest(s, view) && Words(view, start, clear, i + 1) < 65536)
    && !(PowersOff(s, view) && ShownClear(view, start, clear, 0))
  }

  ghost predicate KeepsToListing(s: Nut, view: View, e: Event, start: nat, clear: bool)
    requires Inv(s) && ValidEvent(e) && start < 65536
  {
    match e
    case Execute(x, y) =>
      s.awake ==> forall i: nat | AsListed(s, view, start, clear, i) ::
                    StepKeeps(s, Instruction(s, view, x, y), view, start, clear, i)
    case Wake => true
    case Reset => OnTheList(AfterReset(s), view, start, clear) && !ShownClear(view, start, clear, 0)
  }

  ghost predicate RunKeepsToListing(m: Nut, view: View, es: seq<Event>, start: nat, clear: bool)
    requires Inv(m) && AllValid(es) && start < 65536
    decreases |es|
  {
    if es == [] then OnTheList(m, view, start, clear)
    else
      var front := es[..|es| - 1];
      && RunKeepsToListing(m, view, front, start, clear)
      && KeepsToListing(After(m, view, front), view, es[|es| - 1], start, clear)
  }

  /** Whether something has been executed, or reset. */
  ghost predicate Started(m: Nut, view: View, es: seq<Event>)
    requires Inv(m) && AllValid(es)
    decreases |es|
  {
    es != [] &&
    var front, last := es[..|es| - 1], es[|es| - 1];
    Started(m, view, front) || last.Reset? || (last.Execute? && After(m, view, front).awake)
  }

  /** As long as control does not leave the sequence of words it goes from an instruction of the listing to
      the next one. */
  lemma StaysListed(m: Nut, view: View, x: Inputs, y: Inputs, start: nat, clear: bool, i: nat)
    requires Inv(m) && ValidInputs(x) && m.awake && start < 65536 && AsListed(m, view, start, clear, i)
    requires !Redirects(m, FirstWord(m, view), SecondWord(m, view)) && Words(view, start, clear, i + 1) < 65536
    ensures AsListed(Instruction(m, view, x, y), view, start, clear, i + 1)
  {
    hide Instruction, Disassembled, Redirects, JumpsTo, Words, Inv;
    DecodersAgree(m, view, x, y, Listed(view, start, clear, i), false);
  }

  lemma Asleep(m: Nut, view: View, x: Inputs, y: Inputs)
    requires Inv(m) && ValidInputs(x) && !m.awake && (m.inst == Normal || m.inst == Selpf)
    ensures Instruction(m, view, x, y) == m
  {
  }

  /** One instruction of a run. */
  lemma ExecuteListed(s: Nut, view: View, x: Inputs, y: Inputs, start: nat, clear: bool, i: nat)
    requires Inv(s) && ValidInputs(x) && s.awake && start < 65536 && AsListed(s, view, start, clear, i)
    requires StepKeeps(s, Instruction(s, view, x, y), view, start, clear, i)
    ensures OnTheList(Instruction(s, view, x, y), view, start, clear)
    ensures CarryAsShown(Instruction(s, view, x, y), view, start, clear)
  {
    ListedHere(s, view, start, clear, i);
    hide AsListed, Instruction, Redirects, FirstWord, SecondWord, Inv, Words, Misled, FlagTest, PowersOff, CarryAsShown;
    MisledInStep(s, view, start, clear, i);
    TruthfulUnlessMisled(s, view, x, y, start, clear);
    if !Redirects(s, FirstWord(s, view), SecondWord(s, view)) && Words(view, start, clear, i + 1) < 65536 {
      StaysListed(s, view, x, y, start, clear, i);
      assert AsListed(Instruction(s, view, x, y), view, start, clear, i + 1);
    }
  }

  lemma ResetAsShown(s: Nut, view: View, start: nat, clear: bool)
    requires start < 65536 && !ShownClear(view, start, clear, 0)
    ensures CarryAsShown(AfterReset(s), view, start, clear)
  {
    hide AsListed, Listed, Words, ClearAt;
    var t := AfterReset(s);
    forall j: nat | j > 0 && AsListed(t, view, start, clear, j)
      ensures !Listed(view, start, clear, j).clear
    {
      ClearWhere(t, view, start, clear, j);
    }
  }

  lemma WakeAsShown(s: Nut, view: View, start: nat, clear: bool)
    requires start < 65536
    ensures OnTheList(s.(awake := true), view, start, clear) <==> OnTheList(s, view, start, clear)
    ensures CarryAsShown(s.(awake := true), view, start, clear) <==> CarryAsShown(s, view, start, clear)
  {
    hide Listed, Words;
    assert forall j: nat :: AsListed(s.(awake := true), view, start, clear, j) <==> AsListed(s, view, start, clear, j);
    hide AsListed;
  }

  lemma EventListed(s: Nut, view: View, e: Event, start: nat, clear: bool)
    requires Inv(s) && ValidEvent(e) && start < 65536 && OnTheList(s, view, start, clear)
    requires KeepsToListing(s, view, e, start, clear)
    ensures OnTheList(Next(s, view, e), view, start, clear)
    ensures CarryAsShown(s, view, start, clear) || e.Reset? || (e.Execute? && s.awake)
            ==> CarryAsShown(Next(s, view, e), view, start, clear)
  {
    hide AsListed, Instruction, Inv, CarryAsShown, StepKeeps, ShownClear, AfterReset;
    var i: nat :| AsListed(s, view, start, clear, i);
    if e.Execute? {
      if s.awake {
        ExecuteListed(s, view, e.x, e.y, start, clear, i);
      } else {
        ListedHere(s, view, start, clear, i);
        Asleep(s, view, e.x, e.y);
      }
    } else if e.Wake? {
      WakeAsShown(s, view, start, clear);
    } else {
      ResetAsShown(s, view, start, clear);
    }
  }

  /** A run that leaves the sequence of words only for instructions of the listing executes the listing, and
      once something has been executed the carry is as shown, through sleeping, waking and resets. */
  lemma {:induction false} RunIsListed(m: Nut, view: View, es: seq<Event>, start: nat, clear: bool)
    requires Inv(m) && AllValid(es) && start < 65536 && RunKeepsToListing(m, view, es, start, clear)
    ensures OnTheList(After(m, view, es), view, start, clear)
    ensures Started(m, view, es) || CarryAsShown(m, view, start, clear)
            ==> CarryAsShown(After(m, view, es), view, start, clear)
    decreases |es|
  {
    hide OnTheList, KeepsToListing, Next, Inv, CarryAsShown;
    if es != [] {
      var front := es[..|es| - 1];
      RunIsListed(m, view, front, start, clear);
      EventListed(After(m, view, front), view, es[|es| - 1], start, clear);
    }
  }

  /** In every such run every jump that the listing shows as unconditional, long or short, goes to the target
      shown, from the second instruction on. */
  lemma UnconditionalJumpTaken(m: Nut, view: View, es: seq<Event>, z: Inputs, w: Inputs, start: nat, clear: bool,
                               j: nat)
    requires Inv(m) && AllValid(es) && ValidInputs(z) && start < 65536 && j > 0
    requires RunKeepsToListing(m, view, es, start, clear)
    requires Started(m, view, es) || CarryAsShown(m, view, start, clear)
    requires AsListed(After(m, view, es), view, start, clear, j)
    ensures var t, d := After(m, view, es), Listed(view, start, clear, j);
            t.awake && ShownUnconditional(t, view, d)
            ==> Instruction(t, view, z, w).pc == Disassembled(d, FirstWord(t, view), SecondWord(t, view), false).target
  {
    hide AsListed, Instruction, FirstWord, SecondWord, Inv, ShownUnconditional, Disassembled, OnTheList;
    hide CarryAsShown, After, RunKeepsToListing, Started, Listed;
    RunIsListed(m, view, es, start, clear);
    var t := After(m, view, es);
    if t.awake {
      ShownJumpTaken(t, view, z, w, start, clear, j);
    }
  }

  lemma InstructionKeepsInv(m: Nut, view: View, x: Inputs, y: Inputs)
    requires Inv(m) && ValidInputs(x) && ValidInputs(y)
    ensures Inv(Instruction(m, view, x, y))
  {
    CycleKeepsInv(m, view, x);
    CycleKeepsInv(Cycle(m, view, x), view, y);
    hide Cycle, Inv;
  }

  // ---------- two runs from power on ----------

  /** A short branch in the normal state. */
  lemma ShortBranchRuns(m: Nut, view: View, x: Inputs, y: Inputs)
    requires Inv(m) && ValidInputs(x) && m.awake && m.inst == Normal && FirstWord(m, view) % 4 == 3
    ensures var o := FirstWord(m, view);
            Instruction(m, view, x, y)
            == Ready(m).(pc := if o / 4 % 2 == Bit(m.carry) then (Wrap(m.pc + 1) + Offset(o) - 1) % 65536
                               else Wrap(m.pc + 1))
  {
    LongBranchWords(FirstWord(m, view));
    OtherRuns(m, view, x, y);
    hide Instruction, Decode, FirstWord, Offset;
  }

  lemma TwoExecuted(m: Nut, view: View, x: Inputs)
    requires Inv(m) && ValidInputs(x)
    ensures var e := Execute(x, x);
            && Inv(Instruction(m, view, x, x)) && AllValid([e, e]) && AllValid([e, e, Wake])
            && After(m, view, [e, e]) == Instruction(Instruction(m, view, x, x), view, x, x)
            && After(m, view, [e, e, Wake]) == After(m, view, [e, e]).(awake := true)
  {
    var e := Execute(x, x);
    InstructionKeepsInv(m, view, x, x);
    hide Instruction, Inv;
    assert [e, e, Wake][..2] == [e, e] && [e, e][..1] == [e] && [e][..0] == [];
    assert After(m, view, [e]) == Instruction(m, view, x, x);
  }

  /** What the listing shows of a branch on no carry, word 35, four words on. */
  lemma ShownBranch(t: Nut, view: View, d: Dis)
    requires Inv(t) && t.inst == Normal && FirstWord(t, view) == 35 && Follows(d, t) && d.clear
    ensures ShownUnconditional(t, view, d)
    ensures Disassembled(d, FirstWord(t, view), SecondWord(t, view), false).target == (t.pc + 4) % 65536
  {
    hide FirstWord, SecondWord, LeavesCarryClear;
    assert !TwoWord(35) && Offset(35) == 4;
    hide TwoWord, Offset;
  }

  lemma PowerOnState()
    ensures var m := PowerOn(); Inv(m) && m.awake && m.inst == Normal && m.pc == 0 && m.carry
  {
  }

  /** Word 23 goes two words on if the carry is set. */
  lemma BranchTaken(m: Nut, view: View, x: Inputs)
    requires Inv(m) && ValidInputs(x) && m.awake && m.inst == Normal && m.pc == 0 && m.carry && view[0] == 23
    ensures var t := Instruction(m, view, x, x); t.pc == 2 && t.awake && t.inst == Normal
  {
    ShortBranchRuns(m, view, x, x);
    assert Offset(23) == 2;
    hide Instruction;
  }

  /** Word 35 does not branch if the carry is set. */
  lemma BranchNotTaken(m: Nut, view: View, x: Inputs)
    requires Inv(m) && ValidInputs(x) && m.awake && m.inst == Normal && m.carry && FirstWord(m, view) == 35
    ensures var t := Instruction(m, view, x, x); t.pc == Wrap(m.pc + 1) && t.awake && t.inst == Normal
  {
    ShortBranchRuns(m, view, x, x);
    hide Instruction, Offset, FirstWord;
  }

  lemma StaysAwake(m: Nut, view: View, x: Inputs)
    requires Inv(m) && ValidInputs(x) && m.awake && m.inst == Normal && Decode(FirstWord(m, view)) == Arith
    ensures Instruction(m, view, x, x).awake
  {
    OtherRuns(m, view, x, x);
    hide Instruction, Decode, FirstWord;
  }

  lemma ListedThere(t: Nut, view: View, start: nat, clear: bool, j: nat)
    requires start < 65536 && ClearAt(view, start, clear, t.pc, j) && t.inst == Normal
    ensures AsListed(t, view, start, clear, j) && Follows(Listed(view, start, clear, j), t)
            && Listed(view, start, clear, j).clear
  {
    hide Listed, Words;
  }

  lemma ReadsWord(m: Nut, view: View, a: nat)
    requires Inv(m) && m.pc == a && a < 65536
    ensures FirstWord(m, view) == view[a]
  {
  }

  /** Control that enters an instruction at its second word. The branch in word 0 goes to word 2, which is a
      decrement, but for the listing the end of the long branch in word 1. It decrements digit 0 of register a,
      which is zero after the reset, so there is a borrow, and the branch in word 3 is not taken, though the
      listing shows it as unconditional. */
  lemma OutOfStep(view: View, x: Inputs, base: nat, clear: bool, j: nat)
    requires DigitOps.ArithmeticBase(base) && ValidInputs(x) && x.carryOut == DigitOps.ZeroBorrow(1, base) && j == 2
    requires view[0] == 23 && view[1] == 1 && view[2] == 418 && view[3] == 35
    ensures Inv(PowerOn()) && AllValid([Execute(x, x), Execute(x, x)])
    ensures var s, d := After(PowerOn(), view, [Execute(x, x), Execute(x, x)]), Listed(view, 0, clear, j);
            && s.awake && AsListed(s, view, 0, clear, j) && ShownUnconditional(s, view, d)
            && Disassembled(d, FirstWord(s, view), SecondWord(s, view), false).target == 7
            && Instruction(s, view, x, x).pc == 4
  {
    hide *;
    var m := PowerOn();
    PowerOnState();
    TwoExecuted(m, view, x);
    var t := Instruction(m, view, x, x);
    var s := Instruction(t, view, x, x);
    BranchTaken(m, view, x);
    ArithAtTwo(t, view);
    DigitOps.ZeroBorrows(1, base);
    CarrySource(t, view, x, x);
    StaysAwake(t, view, x);
    InstructionKeepsInv(t, view, x, x);
    ReadsWord(s, view, 3);
    OutOfStepListed(view, clear, j);
    ListedThere(s, view, 0, clear, j);
    ShownBranch(s, view, Listed(view, 0, clear, j));
    BranchNotTaken(s, view, x);
    WrapSmall(4);
  }

  lemma ArithAtTwo(t: Nut, view: View)
    requires Inv(t) && t.pc == 2 && t.inst == Normal && view[2] == 418
    ensures CanLeaveCarry(t, view) && GoesOn(t, view) == 3 && Decode(FirstWord(t, view)) == Arith
  {
  }

  lemma OutOfStepListed(view: View, clear: bool, j: nat)
    requires j == 2 && view[0] == 23 && view[1] == 1
    ensures ClearAt(view, 0, clear, 3, j)
  {
    var n := j - 1;
    assert Listed(view, 0, clear, n - 1).addr == 0;
    FirstListed(view, clear, n);
    hide Listed, LeavesCarryClear, Op20Flow, Offset;
  }

  lemma FirstListed(view: View, clear: bool, n: nat)
    requires n == 1 && view[0] == 23
    ensures var d := Listed(view, 0, clear, n); d.addr == 1 && d.inst == Normal && Words(view, 0, clear, n) == 1
  {
  }

  /** A listing over words that neither branch nor set the carry, as far as it knows. */
  lemma {:induction false} PlainListing(view: View, start: nat, clear: bool, n: nat)
    requires start < 65536 && start + n <= 65536
    requires forall a :: start <= a < start + n ==> view[a] == 0 || view[a] == 0x060
    ensures var d := Listed(view, start, clear, n);
            d.addr == Wrap(start + n) && d.inst == Normal && (n > 0 ==> d.clear) && Words(view, start, clear, n) == n
    decreases n
  {
    hide *;
    if n > 0 {
      PlainListing(view, start, clear, n - 1);
      WrapSmall(start + n - 1);
      PlainWord(view, Listed(view, start, clear, n - 1));
      ListedStep(view, start, clear, n - 1);
    } else {
      ListedStart(view, start, clear, n);
    }
  }

  lemma ListedStart(view: View, start: nat, clear: bool, n: nat)
    requires start < 65536 && n == 0
    ensures var d := Listed(view, start, clear, n);
            d.addr == Wrap(start) && d.inst == Normal && Words(view, start, clear, n) == 0
  {
  }

  lemma PlainWord(view: View, d: Dis)
    requires d.addr < 65536 && d.inst == Normal && (view[d.addr] == 0 || view[d.addr] == 0x060)
    ensures !TwoWord(view[d.addr])
    ensures var e := ListedNext(view, d); e.addr == Wrap(d.addr + 1) && e.inst == Normal && e.clear
  {
  }

  /** A power off with the display disabled, and a key that wakes the processor. A listing from word 1 on
      comes round to word 0 and shows the carry clear and the branch there as unconditional; it is not taken. */
  lemma DeepSleepMissed(view: View, x: Inputs, clear: bool, j: nat)
    requires ValidInputs(x) && x.carryOut && j == 65535
    requires view[0] == 35 && view[1] == 0x060 && forall a :: 2 <= a < 65536 ==> view[a] == 0
    ensures Inv(PowerOn()) && AllValid([Execute(x, x), Execute(x, x), Wake])
    ensures var s, d := After(PowerOn(), view, [Execute(x, x), Execute(x, x), Wake]), Listed(view, 1, clear, j);
            && s.awake && AsListed(s, view, 1, clear, j) && ShownUnconditional(s, view, d)
            && Disassembled(d, FirstWord(s, view), SecondWord(s, view), false).target == 4
            && Instruction(s, view, x, x).pc == 1
  {
    hide *;
    var m := PowerOn();
    PowerOnState();
    TwoExecuted(m, view, x);
    var t := Instruction(m, view, x, x);
    var off := Instruction(t, view, x, x);
    var s := off.(awake := true);
    ReadsWord(m, view, 0);
    BranchNotTaken(m, view, x);
    WrapSmall(1);
    PowerOffAtOne(t, view);
    CarrySource(t, view, x, x);
    InstructionKeepsInv(t, view, x, x);
    WokenInv(off);
    ReadsWord(s, view, 0);
    DeepSleepListed(view, clear, j);
    ListedThere(s, view, 1, clear, j);
    ShownBranch(s, view, Listed(view, 1, clear, j));
    BranchNotTaken(s, view, x);
  }

  lemma WokenInv(m: Nut)
    requires Inv(m)
    ensures Inv(m.(awake := true))
  {
  }

  lemma DeepSleepListed(view: View, clear: bool, j: nat)
    requires j == 65535 && view[1] == 0x060 && forall a :: 2 <= a < 65536 ==> view[a] == 0
    ensures ClearAt(view, 1, clear, 0, j)
  {
    hide Listed, Words;
    PlainListing(view, 1, clear, j);
  }

  lemma PowerOffAtOne(t: Nut, view: View)
    requires Inv(t) && t.pc == 1 && t.inst == Normal && view[1] == 0x060
    ensures CanLeaveCarry(t, view) && GoesOn(t, view) == 0
  {
  }
}
