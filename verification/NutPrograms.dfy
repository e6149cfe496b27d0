/** Programs of the Nut processor for which a listing is right in every run: a condition on the words alone. */
module NutPrograms {
  import opened ReturnStacks
  import opened NutSpec
  import opened NutDis
  import opened NutRuns

  // ---------- the condition ----------

  ghost predicate ListsAt(view: View, start: nat, clear: bool, a: nat, j: nat)
    requires start < 65536
  {
    Words(view, start, clear, j) < 65536 && Listed(view, start, clear, j).addr == a
    && Listed(view, start, clear, j).inst == Normal
  }

  /** An address where the listing has an instruction, in the normal state. */
  ghost predicate OnList(view: View, start: nat, clear: bool, a: nat)
    requires start < 65536
  {
    exists j: nat :: ListsAt(view, start, clear, a, j)
  }

  function InPage(pc: nat, low: nat): nat {
    pc / 256 * 256 + low
  }

  /** Where an instruction of the normal state can lead by its own words is on the list. It does not jump to
      an address in register c and pushes none. */
  ghost predicate NormalTame(view: View, start: nat, clear: bool, a: nat)
    requires start < 65536 && a < 65536
  {
    var o, next := view[a], Wrap(a + 1);
    match Decode(o)
    case LongBranchOp => OnList(view, start, clear, LongTarget(o, view[Wrap(a + 1)]))
    case ShortBranch => OnList(view, start, clear, (next + Offset(o) - 1) % 65536)
    case KeysToRom => forall low :: 0 <= low < 256 ==> OnList(view, start, clear, InPage(next, low))
    case GotoC => false
    case PushC => false
    case _ => true
  }

  /** The i-th instruction of the listing; the listing ends where it began, and no flag test of a peripheral
      has an instruction behind it. */
  ghost predicate InstructionTame(view: View, start: nat, clear: bool, i: nat)
    requires start < 65536
  {
    var d := Listed(view, start, clear, i);
    && (Words(view, start, clear, i + 1) >= 65536 ==>
          Words(view, start, clear, i + 1) == 65536 && Listed(view, start, clear, i + 1).inst == Normal)
    && if d.inst == Normal then NormalTame(view, start, clear, d.addr)
       else view[d.addr] % 64 == 3 ==> Words(view, start, clear, i + 1) >= 65536
  }

  /** The condition on the words: every listed instruction is tame, and the first word is on the list, where
      the carry is not shown clear, as when the listing starts there. */
  ghost predicate Tame(view: View, start: nat, clear: bool)
    requires start < 65536
  {
    && (forall i: nat :: Words(view, start, clear, i) < 65536 ==> InstructionTame(view, start, clear, i))
    && OnList(view, start, clear, 0) && !ShownClear(view, start, clear, 0)
  }

  // ---------- what every event keeps ----------

  ghost predicate Returning(stack: Shifting, view: View, start: nat, clear: bool)
    requires start < 65536
  {
    forall n :: 0 <= n < 4 ==> OnList(view, start, clear, stack[n])
  }

  ghost predicate OnTrack(m: Nut, view: View, start: nat, clear: bool)
    requires start < 65536
  {
    OnTheList(m, view, start, clear) && Returning(m.stack, view, start, clear)
  }

  lemma ArrivesAt(t: Nut, view: View, start: nat, clear: bool)
    requires start < 65536 && t.inst == Normal && OnList(view, start, clear, t.pc)
    ensures OnTheList(t, view, start, clear)
  {
    hide Listed, Words;
    var j: nat :| ListsAt(view, start, clear, t.pc, j);
    assert AsListed(t, view, start, clear, j);
  }

  lemma StacksReturn(s: Shifting, a: nat, view: View, start: nat, clear: bool)
    requires start < 65536 && Returning(s, view, start, clear) && OnList(view, start, clear, 0)
    ensures OnList(view, start, clear, a) ==> Returning(Push(s, a), view, start, clear)
    ensures Returning(Pop(s).1, view, start, clear) && Returning(s[..3] + [0], view, start, clear)
  {
    hide OnList;
  }

  /** Behind a listed instruction that ends in the normal state comes an instruction of the listing. */
  lemma NextIsListed(view: View, start: nat, clear: bool, i: nat)
    requires start < 65536 && InstructionTame(view, start, clear, i)
    requires Listed(view, start, clear, i + 1).inst == Normal
    ensures OnList(view, start, clear, Listed(view, start, clear, i + 1).addr)
  {
    hide Listed, Words, NormalTame, Wrap;
    if Words(view, start, clear, i + 1) < 65536 {
      assert ListsAt(view, start, clear, Listed(view, start, clear, i + 1).addr, i + 1);
    } else {
      ListedAddress(view, start, clear, i + 1);
      StartOnList(view, start, clear);
      AroundOnce(start);
    }
  }

  lemma StartOnList(view: View, start: nat, clear: bool)
    requires start < 65536
    ensures OnList(view, start, clear, start)
  {
    assert ListsAt(view, start, clear, start, 0);
  }

  lemma AroundOnce(start: nat)
    requires start < 65536
    ensures Wrap(start + 65536) == start
  {
  }

  /** What an instruction other than a long branch does to the stack, and where it goes if it redirects. */
  ghost predicate Goes(m: Nut, t: Nut, op: Op, o: nat, x: Inputs)
    requires o < 1024
  {
    && (op != PushC ==> t.stack == m.stack || t.stack == Pop(m.stack).1)
    && (Leaves(op, o, m.carry) ==> t.inst == Normal && Lands(m, t.pc, op, o, x))
  }

  predicate Lands(m: Nut, pc: nat, op: Op, o: nat, x: Inputs)
    requires o < 1024
  {
    match op
    case ShortBranch => pc == (Wrap(m.pc + 1) + Offset(o) - 1) % 65536
    case PowerOff => pc == 0
    case KeysToRom => pc == InPage(Wrap(m.pc + 1), x.keyCode % 256)
    case GotoC => true
    case _ => pc == m.stack[0]
  }

  lemma OtherGoes(m: Nut, view: View, x: Inputs, y: Inputs)
    requires Inv(m) && ValidInputs(x) && m.awake && m.inst == Normal && Decode(FirstWord(m, view)) != LongBranchOp
    ensures Goes(m, Instruction(m, view, x, y), Decode(FirstWord(m, view)), FirstWord(m, view), x)
  {
    hide Instruction, Decode, FirstWord;
    OtherRuns(m, view, x, y);
    PerformedGoes(m, Decode(FirstWord(m, view)), FirstWord(m, view), x);
  }

  lemma PerformedGoes(m: Nut, op: Op, o: nat, x: Inputs)
    requires Inv(m) && o < 1024 && m.inst == Normal && op != LongBranchOp
    ensures op != LoadImmediate && op != RomToC ==> Goes(m, Performed(Ready(m), op, o, x), op, o, x)
  {
    hide Offset;
  }

  lemma BranchGoes(m: Nut, view: View, x: Inputs, y: Inputs)
    requires Inv(m) && ValidInputs(x) && m.awake && m.inst == Normal && Decode(FirstWord(m, view)) == LongBranchOp
    ensures var t, next := Instruction(m, view, x, y), (m.pc + 2) % 65536;
            var o1, o2 := FirstWord(m, view), SecondWord(m, view);
            && t.inst == Normal && (t.pc == next || t.pc == LongTarget(o1, o2))
            && (t.stack == m.stack || t.stack == Push(m.stack, next) || t.stack == m.stack[..3] + [0])
            && (!Redirects(m, o1, o2) ==> t.pc == next)
  {
    hide Instruction, Decode, FirstWord, SecondWord, LongTarget;
    LongBranchRuns(m, view, x, y);
  }

  lemma PeripheralGoes(m: Nut, view: View, x: Inputs, y: Inputs)
    requires Inv(m) && ValidInputs(x) && m.awake && m.inst == Selpf
    ensures Instruction(m, view, x, y).stack == m.stack && !Redirects(m, FirstWord(m, view), SecondWord(m, view))
  {
  }

  /** The state and the address behind an instruction that does not redirect are those of the next listed one. */
  lemma GoesOnListed(m: Nut, view: View, x: Inputs, y: Inputs, start: nat, clear: bool, i: nat)
    requires Inv(m) && ValidInputs(x) && m.awake && start < 65536 && AsListed(m, view, start, clear, i)
    requires !Redirects(m, FirstWord(m, view), SecondWord(m, view)) && InstructionTame(view, start, clear, i)
    ensures OnTheList(Instruction(m, view, x, y), view, start, clear)
  {
    hide Instruction, Listed, ListedNext, Redirects, FirstWord, SecondWord, JumpsTo, Words, Inv, NormalTame, Wrap;
    if Words(view, start, clear, i + 1) < 65536 {
      StaysListed(m, view, x, y, start, clear, i);
      assert AsListed(Instruction(m, view, x, y), view, start, clear, i + 1);
    } else {
      NextState(m, view, x, y, start, clear, i);
      NextIsListed(view, start, clear, i);
      ArrivesAt(Instruction(m, view, x, y), view, start, clear);
    }
  }

  lemma NextState(m: Nut, view: View, x: Inputs, y: Inputs, start: nat, clear: bool, i: nat)
    requires Inv(m) && ValidInputs(x) && m.awake && start < 65536 && AsListed(m, view, start, clear, i)
    requires !Redirects(m, FirstWord(m, view), SecondWord(m, view))
    ensures var t, e := Instruction(m, view, x, y), Listed(view, start, clear, i + 1);
            t.pc == e.addr && t.inst == e.inst
  {
    hide Instruction, Disassembled, Redirects, JumpsTo, Words, Inv;
    DecodersAgree(m, view, x, y, Listed(view, start, clear, i), false);
  }

  /** The address behind a long branch is on the list. */
  lemma BehindBranch(m: Nut, view: View, start: nat, clear: bool, i: nat)
    requires Inv(m) && start < 65536 && AsListed(m, view, start, clear, i) && InstructionTame(view, start, clear, i)
    requires m.inst == Normal && Decode(FirstWord(m, view)) == LongBranchOp
    ensures OnList(view, start, clear, (m.pc + 2) % 65536)
  {
    hide Listed, Words, NormalTame, FirstWord, Decode, InstructionTame, AsListed, OnList, Inv;
    ListedHere(m, view, start, clear, i);
    BranchListed(view, start, clear, i);
    NextIsListed(view, start, clear, i);
  }

  lemma BranchListed(view: View, start: nat, clear: bool, i: nat)
    requires start < 65536
    ensures var d, e := Listed(view, start, clear, i), Listed(view, start, clear, i + 1);
            d.inst == Normal && Decode(view[d.addr]) == LongBranchOp ==>
              e.inst == Normal && e.addr == (d.addr + 2) % 65536
  {
    LongBranchWords(view[Listed(view, start, clear, i).addr]);
    hide Decode, LeavesCarryClear, LongTarget;
  }

  /** One instruction from a state on track. */
  lemma ExecuteOnTrack(m: Nut, view: View, x: Inputs, y: Inputs, start: nat, clear: bool, i: nat)
    requires Inv(m) && ValidInputs(x) && m.awake && start < 65536 && AsListed(m, view, start, clear, i)
    requires InstructionTame(view, start, clear, i) && OnList(view, start, clear, 0)
    requires Returning(m.stack, view, start, clear)
    ensures OnTrack(Instruction(m, view, x, y), view, start, clear)
  {
    hide AsListed, Instruction, Listed, Words, Inv, FirstWord, SecondWord, Redirects, OnTheList, OnList;
    hide Returning, Decode, InstructionTame;
    ListedHere(m, view, start, clear, i);
    if !Redirects(m, FirstWord(m, view), SecondWord(m, view)) {
      GoesOnListed(m, view, x, y, start, clear, i);
    }
    StacksReturn(m.stack, (m.pc + 2) % 65536, view, start, clear);
    if m.inst == Selpf {
      PeripheralGoes(m, view, x, y);
    } else if Decode(FirstWord(m, view)) == LongBranchOp {
      BranchOnTrack(m, view, x, y, start, clear, i);
    } else {
      OtherOnTrack(m, view, x, y, start, clear, i);
    }
  }

  lemma BranchOnTrack(m: Nut, view: View, x: Inputs, y: Inputs, start: nat, clear: bool, i: nat)
    requires Inv(m) && ValidInputs(x) && m.awake && start < 65536 && AsListed(m, view, start, clear, i)
    requires InstructionTame(view, start, clear, i) && OnList(view, start, clear, 0)
    requires Returning(m.stack, view, start, clear) && m.inst == Normal && Decode(FirstWord(m, view)) == LongBranchOp
    ensures OnTrack(Instruction(m, view, x, y), view, start, clear)
  {
    hide AsListed, Instruction, Listed, Words, Inv, FirstWord, SecondWord, Redirects, OnTheList, OnList;
    hide Returning, Decode, InstructionTame, LongTarget;
    BranchGoes(m, view, x, y);
    BehindBranch(m, view, start, clear, i);
    TameHere(m, view, start, clear, i);
    StacksReturn(m.stack, (m.pc + 2) % 65536, view, start, clear);
    ArrivesAt(Instruction(m, view, x, y), view, start, clear);
  }

  lemma OtherOnTrack(m: Nut, view: View, x: Inputs, y: Inputs, start: nat, clear: bool, i: nat)
    requires Inv(m) && ValidInputs(x) && m.awake && start < 65536 && AsListed(m, view, start, clear, i)
    requires InstructionTame(view, start, clear, i) && OnList(view, start, clear, 0)
    requires Returning(m.stack, view, start, clear) && m.inst == Normal && Decode(FirstWord(m, view)) != LongBranchOp
    ensures OnTrack(Instruction(m, view, x, y), view, start, clear)
  {
    hide AsListed, Instruction, Listed, Words, Inv, FirstWord, SecondWord, OnTheList, OnList, Returning, Decode;
    hide InstructionTame, LongTarget, Offset, InPage;
    var t := Instruction(m, view, x, y);
    OtherGoes(m, view, x, y);
    TameHere(m, view, start, clear, i);
    StacksReturn(m.stack, 0, view, start, clear);
    ReturnListed(m.stack, view, start, clear);
    if Redirects(m, FirstWord(m, view), SecondWord(m, view)) {
      assert OnList(view, start, clear, t.pc);
      ArrivesAt(t, view, start, clear);
    } else {
      GoesOnListed(m, view, x, y, start, clear, i);
    }
  }

  lemma ReturnListed(s: Shifting, view: View, start: nat, clear: bool)
    requires start < 65536 && Returning(s, view, start, clear)
    ensures OnList(view, start, clear, s[0])
  {
    hide OnList;
  }

  /** What the condition says of the instruction at the program counter. */
  lemma TameHere(m: Nut, view: View, start: nat, clear: bool, i: nat)
    requires Inv(m) && start < 65536 && AsListed(m, view, start, clear, i) && InstructionTame(view, start, clear, i)
    requires m.inst == Normal
    ensures var o, next := FirstWord(m, view), Wrap(m.pc + 1);
            match Decode(o)
            case LongBranchOp => OnList(view, start, clear, LongTarget(o, SecondWord(m, view)))
            case ShortBranch => OnList(view, start, clear, (next + Offset(o) - 1) % 65536)
            case KeysToRom => forall low :: 0 <= low < 256 ==> OnList(view, start, clear, InPage(next, low))
            case GotoC => false
            case PushC => false
            case _ => true
  {
    hide Listed, Words, OnList, LongTarget, Offset, InPage, Decode, AsListed;
    ListedHere(m, view, start, clear, i);
  }

  /** Every event of a tame program stays on track. */
  lemma EventOnTrack(m: Nut, view: View, e: Event, start: nat, clear: bool)
    requires Inv(m) && ValidEvent(e) && start < 65536 && Tame(view, start, clear) && OnTrack(m, view, start, clear)
    ensures KeepsToListing(m, view, e, start, clear) && OnTrack(Next(m, view, e), view, start, clear)
  {
    hide AsListed, Instruction, Listed, Words, Inv, OnList, Returning, ShownClear, InstructionTame, AfterReset;
    var i: nat :| AsListed(m, view, start, clear, i);
    match e
    case Execute(x, y) =>
      ListedHere(m, view, start, clear, i);
      if m.awake {
        ExecuteOnTrack(m, view, x, y, start, clear, i);
        forall j: nat | AsListed(m, view, start, clear, j)
          ensures StepKeeps(m, Instruction(m, view, x, y), view, start, clear, j)
        {
          ListedHere(m, view, start, clear, j);
          NoFlagTest(m, view, start, clear, j);
        }
      } else {
        Asleep(m, view, x, y);
      }
    case Wake => WakeAsShown(m, view, start, clear);
    case Reset =>
      ResetState(m);
      ArrivesAt(AfterReset(m), view, start, clear);
  }

  lemma ResetState(m: Nut)
    ensures AfterReset(m).pc == 0 && AfterReset(m).inst == Normal && AfterReset(m).stack == m.stack
  {
  }

  lemma NoFlagTest(m: Nut, view: View, start: nat, clear: bool, i: nat)
    requires Inv(m) && start < 65536 && AsListed(m, view, start, clear, i) && InstructionTame(view, start, clear, i)
    ensures FlagTest(m, view) ==> Words(view, start, clear, i + 1) >= 65536
  {
    ListedHere(m, view, start, clear, i);
    hide Listed, Words, NormalTame, AsListed;
  }

  /** Every run of a tame program from power on, whatever happens, keeps to the listing. */
  lemma {:induction false} TameRun(view: View, es: seq<Event>, start: nat, clear: bool)
    requires AllValid(es) && start < 65536 && Tame(view, start, clear)
    ensures Inv(PowerOn()) && RunKeepsToListing(PowerOn(), view, es, start, clear)
    ensures OnTrack(After(PowerOn(), view, es), view, start, clear)
    decreases |es|
  {
    PowerOnTrack(view, start, clear);
    hide PowerOn, OnTrack, KeepsToListing, Tame, Inv, Next;
    if es != [] {
      var n := |es| - 1;
      TameRun(view, es[..n], start, clear);
      EventOnTrack(After(PowerOn(), view, es[..n]), view, es[n], start, clear);
    }
  }

  lemma PowerOnTrack(view: View, start: nat, clear: bool)
    requires start < 65536 && Tame(view, start, clear)
    ensures Inv(PowerOn()) && OnTrack(PowerOn(), view, start, clear) && OnTheList(PowerOn(), view, start, clear)
    ensures CarryAsShown(PowerOn(), view, start, clear)
  {
    hide OnList, InstructionTame, ShownClear, Listed, Words;
    ArrivesAt(PowerOn(), view, start, clear);
    ResetAsShown(Nut(0, Normal, 0, [0, 0, 0, 0], false, false, 0, false), view, start, clear);
  }

  /** So for every tame program, in every run from power on, through calls, sleeping, waking and resets, every
      jump that the listing shows as unconditional goes to the target shown. */
  lemma TameJumpTaken(view: View, es: seq<Event>, z: Inputs, w: Inputs, start: nat, clear: bool, j: nat)
    requires AllValid(es) && ValidInputs(z) && start < 65536 && j > 0 && Tame(view, start, clear)
    ensures Inv(PowerOn())
    ensures var t, d := After(PowerOn(), view, es), Listed(view, start, clear, j);
            AsListed(t, view, start, clear, j) && t.awake && ShownUnconditional(t, view, d)
            ==> Instruction(t, view, z, w).pc == Disassembled(d, FirstWord(t, view), SecondWord(t, view), false).target
  {
    hide *;
    TameRun(view, es, start, clear);
    PowerOnTrack(view, start, clear);
    if AsListed(After(PowerOn(), view, es), view, start, clear, j) {
      UnconditionalJumpTaken(PowerOn(), view, es, z, w, start, clear, j);
    }
  }

  // ---------- a tame program ----------

  /** A listing never comes back to its first word. */
  lemma StartNotShown(view: View, start: nat, clear: bool, first: nat)
    requires start < 65536 && first == 0
    ensures !ShownClear(view, start, clear, start)
  {
    hide Listed, Words;
    StartListed(view, start, clear, first);
    if ShownClear(view, start, clear, start) {
      var j: nat :| j > 0 && ClearAt(view, start, clear, start, j);
      ListedOnce(view, start, clear, first, j);
    }
  }

  lemma StartListed(view: View, start: nat, clear: bool, first: nat)
    requires start < 65536 && first == 0
    ensures Listed(view, start, clear, first).addr == start && Words(view, start, clear, first) == 0
  {
  }

  /** A program with a branch, a return, a power off and a test. */
  ghost predicate Sample(view: View) {
    && view[0] == 19     // branch to 2 on no carry
    && view[1] == 0x3e0  // return
    && view[2] == 0x060  // power off
    && view[3] == 0x00c  // test of a status bit
    && forall a :: 4 <= a < 65536 ==> view[a] == 0
  }

  lemma SampleWord(view: View, a: nat)
    requires Sample(view) && a < 65536
    ensures !TwoWord(view[a]) && (view[a] % 4 == 0 ==> view[a] % 64 != 0x24)
    ensures if a == 0 then Decode(view[a]) == ShortBranch && Offset(view[a]) == 2
            else Decode(view[a]) in {ReturnOp, PowerOff, Test, Plain}
  {
    assert a == 0 || a == 1 || a == 2 || a == 3 || view[a] == 0;
  }

  lemma {:induction false} SampleListed(view: View, clear: bool, n: nat)
    requires Sample(view) && n <= 65536
    ensures var d := Listed(view, 0, clear, n); d.addr == Wrap(n) && d.inst == Normal && Words(view, 0, clear, n) == n
    decreases n
  {
    hide *;
    if n > 0 {
      SampleListed(view, clear, n - 1);
      WrapSmall(n - 1);
      SampleWord(view, n - 1);
      NextNormal(view, Listed(view, 0, clear, n - 1));
      ListedStep(view, 0, clear, n - 1);
    } else {
      ListedStart(view, 0, clear, n);
    }
  }

  lemma NextNormal(view: View, d: Dis)
    requires d.addr < 65536 && d.inst == Normal && !TwoWord(view[d.addr])
    requires view[d.addr] % 4 == 0 ==> view[d.addr] % 64 != 0x24
    ensures ListedNext(view, d).inst == Normal && ListedNext(view, d).addr == Wrap(d.addr + 1)
  {
    hide LeavesCarryClear, TwoWord, Op20Flow, Offset;
  }

  lemma SampleOnList(view: View, clear: bool, a: nat)
    requires Sample(view) && a < 65536
    ensures OnList(view, 0, clear, a)
  {
    hide Listed, Words, Sample;
    SampleListed(view, clear, a);
    WrapSmall(a);
    assert ListsAt(view, 0, clear, a, a);
  }

  lemma SampleInstruction(view: View, clear: bool, i: nat, all: nat)
    requires Sample(view) && Words(view, 0, clear, i) < 65536 && all == 65536
    ensures InstructionTame(view, 0, clear, i)
  {
    hide Listed, Words, Sample, OnList, Decode, TwoWord, Offset, Wrap;
    SampleListed(view, clear, all);
    if i > all {
      WordsGrow(view, 0, clear, all, i);
    }
    if i < all {
      SampleListed(view, clear, i);
      SampleListed(view, clear, i + 1);
      WrapSmall(i);
      SampleWord(view, i);
      SampleOnList(view, clear, 2);
      WrapSmall(1);
    }
  }

  /** The condition holds of this program, listed from word 0. */
  lemma SampleIsTame(view: View, clear: bool)
    requires Sample(view)
    ensures Tame(view, 0, clear)
  {
    hide InstructionTame, Sample, Words;
    SampleOnList(view, clear, 0);
    StartNotShown(view, 0, clear, 0);
    forall i: nat | Words(view, 0, clear, i) < 65536
      ensures InstructionTame(view, 0, clear, i)
    {
      SampleInstruction(view, clear, i, 65536);
    }
  }
}
