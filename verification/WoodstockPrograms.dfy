/** Programs of the Woodstock processor for which a listing is right in every run: a condition on the words
    of a bank alone. */
module WoodstockPrograms {
  import opened ReturnStacks
  import opened WoodstockCrc
  import opened WoodstockSpec
  import opened WoodstockDis
  import opened WoodstockRuns

  // ---------- the condition ----------

  /** An address that the listing shows as the first word of an instruction. */
  ghost predicate First(words: seq<Word>, start: nat, clear: bool, a: nat)
    requires |words| == 4096 && start < 4096
  {
    a < 4096 && ListedAt(words, start, clear, a).inst == Normal
  }

  function NextWord(a: nat): (n: nat)
    ensures n < 4096
  {
    (a + 1) % 4096
  }

  /** A word listed as the first one of an instruction. Wherever it can lead by its own address is listed as
      a first word too; a delayed select stands before a jsb or a goto. */
  ghost predicate FirstTame(words: seq<Word>, start: nat, clear: bool, next: nat, o: nat)
    requires |words| == 4096 && start < 4096 && next < 4096 && o < 1024
  {
    match Decode(o)
    case Jsb => First(words, start, clear, InPage(next, o / 4))
    case Goto => First(words, start, clear, InPage(next, o / 4))
    case SelRom => First(words, start, clear, o / 64 * 256 + next % 256)
    case DelSelRom => SelectTame(words, start, clear, next, o / 64)
    case KeysToRom => forall low :: 0 <= low < 256 ==> First(words, start, clear, InPage(next, low))
    case AToRom => forall low :: 0 <= low < 256 ==> First(words, start, clear, InPage(next, low))
    case _ => true
  }

  ghost predicate SelectTame(words: seq<Word>, start: nat, clear: bool, a: nat, rom: nat)
    requires |words| == 4096 && start < 4096 && a < 4096
  {
    var o := Number(words[a]);
    (o % 4 == 1 || o % 4 == 3) && First(words, start, clear, rom * 256 + o / 4)
  }

  ghost predicate WordTame(words: seq<Word>, start: nat, clear: bool, a: nat)
    requires |words| == 4096 && start < 4096 && a < 4096
  {
    TameAs(words, start, clear, ListedAt(words, start, clear, a).inst, NextWord(a), Number(words[a]))
  }

  ghost predicate TameAs(words: seq<Word>, start: nat, clear: bool, inst: InstState, next: nat, o: nat)
    requires |words| == 4096 && start < 4096 && next < 4096 && o < 1024
  {
    if inst == ThenGoto then First(words, start, clear, next / 1024 * 1024 + o)
    else FirstTame(words, start, clear, next, o) && (next == start ==> !TwoWord(o))
  }

  /** The condition on the words of a bank. */
  ghost predicate Tame(words: seq<Word>, start: nat, clear: bool)
    requires |words| == 4096 && start < 4096
  {
    forall a :: 0 <= a < 4096 ==> WordTame(words, start, clear, a)
  }

  // ---------- what every cycle keeps ----------

  ghost predicate Returning(c: Circular, words: seq<Word>, start: nat, clear: bool)
    requires |words| == 4096 && start < 4096 && Proper(c)
  {
    First(words, start, clear, c.slots[0]) && First(words, start, clear, c.slots[1])
  }

  /** In step, with first words to return to; a select is pending only before a tame branch. */
  ghost predicate OnTrack(m: Act, words: seq<Word>, start: nat, clear: bool)
    requires Inv(m) && |words| == 4096 && start < 4096
  {
    && InStep(m, words, start, clear) && Returning(m.ctl.calls, words, start, clear)
    && (m.ctl.delRomFlag
        ==> m.ctl.inst == Normal && !m.fl.carry && SelectTame(words, start, clear, m.ctl.pc, m.ctl.delRom))
  }

  lemma FirstInStep(t: Act, words: seq<Word>, start: nat, clear: bool)
    requires Inv(t) && |words| == 4096 && start < 4096 && t.ctl.inst == Normal && First(words, start, clear, t.ctl.pc)
    ensures InStep(t, words, start, clear)
  {
    hide ListedAt;
  }

  lemma StartIsFirst(words: seq<Word>, start: nat, clear: bool)
    requires |words| == 4096 && start < 4096
    ensures First(words, start, clear, start)
  {
  }

  /** Behind an instruction comes a first word. */
  lemma NextIsFirst(words: seq<Word>, start: nat, clear: bool, a: nat)
    requires |words| == 4096 && start < 4096 && a < 4096
    requires ListedAt(words, start, clear, a).inst == ThenGoto || !TwoWord(Number(words[a]))
    ensures First(words, start, clear, NextWord(a))
  {
    hide ListedAt, Disassembled, Number, TwoWord;
    if NextWord(a) == start {
      StartIsFirst(words, start, clear);
    } else {
      ListedNext(words, start, clear, a);
      ListedAtInst(words, start, clear, a);
      DisassembledInst(ListedAt(words, start, clear, a), Number(words[a]));
    }
  }

  /** The control state after a word in the normal state, no select being pending. */
  lemma PlainControl(m: Act, w: Word, k: Model, x: Inputs)
    requires Inv(m) && ValidInputs(x) && m.ctl.inst == Normal && !m.ctl.delRomFlag
    ensures var t, o, next := CycleOn(m, w, k, x).ctl, Number(w), NextWord(m.ctl.pc);
            if TwoWord(o) then t.inst == ThenGoto && t.pc == next && t.calls == m.ctl.calls && !t.delRomFlag
            else AfterPlain(m, t, o, next)
  {
    var c, o := Begun(m, k).ctl, Number(w);
    NormalCycle(m, w, k, x);
    TwoWordIffTests(o);
    hide CycleOn, Begun, Number, TwoWord, Tests;
    PlainOp(m, c, o, x);
  }

  /** The same by operation. */
  predicate AfterPlain(m: Act, t: Control, o: nat, next: nat)
    requires Proper(m.ctl.calls) && o < 1024
  {
    && (t.inst == if Decode(o) == RomSelftest then Selftest else Normal)
    && (t.calls == if Decode(o) == Jsb then ReturnStacks.Jsb(m.ctl.calls, next)
                   else if Decode(o) == ReturnOp then Return(m.ctl.calls).1 else m.ctl.calls)
    && (t.delRomFlag <==> Decode(o) == DelSelRom) && (t.delRomFlag ==> t.delRom == o / 64)
    && (match Decode(o)
        case Jsb => t.pc == InPage(next, o / 4)
        case Goto => t.pc == if m.fl.carry then next else InPage(next, o / 4)
        case ReturnOp => t.pc == Return(m.ctl.calls).0
        case SelRom => t.pc == o / 64 * 256 + next % 256
        case KeysToRom => exists low :: 0 <= low < 256 && t.pc == InPage(next, low)
        case AToRom => exists low :: 0 <= low < 256 && t.pc == InPage(next, low)
        case RomSelftest => true
        case _ => t.pc == next)
  }

  lemma PlainOp(m: Act, c: Control, o: nat, x: Inputs)
    requires Inv(m) && ValidInputs(x) && !m.ctl.delRomFlag && o < 1024
    requires Proper(c.calls) && c.bank < 2 && c.pc == NextWord(m.ctl.pc) && c.calls == m.ctl.calls && !c.delRomFlag
    requires c.inst == Normal
    ensures var t := Selected(m.ctl, ControlOp(c, Decode(o), o, m.fl.carry, x));
            if Tests(Decode(o), o) then t.inst == ThenGoto && t.pc == NextWord(m.ctl.pc) && t.calls == m.ctl.calls
                && !t.delRomFlag
            else AfterPlain(m, t, o, NextWord(m.ctl.pc))
  {
    hide Decode, InPage, ReturnStacks.Jsb, Return;
    var low := if x.keyCode < 0 then 0 else x.keyCode;
    assert InPage(c.pc, low) == InPage(NextWord(m.ctl.pc), low)
        && InPage(c.pc, x.digits) == InPage(NextWord(m.ctl.pc), x.digits);
  }

  lemma BegunCalls(m: Act, k: Model)
    requires Inv(m) && m.ctl.inst == Normal
    ensures Begun(m, k).ctl.calls == m.ctl.calls && Proper(m.ctl.calls)
  {
  }

  lemma NextWordIs(a: nat)
    ensures NextWord(a) == (a + 1) % 4096
  {
  }

  /** The control state after a branch that a delayed select takes to its page. */
  lemma PendingControl(m: Act, w: Word, k: Model, x: Inputs)
    requires Inv(m) && ValidInputs(x) && m.ctl.inst == Normal && m.ctl.delRomFlag && !m.fl.carry
    requires Number(w) % 4 == 1 || Number(w) % 4 == 3
    ensures var t, o := CycleOn(m, w, k, x).ctl, Number(w);
            && t.inst == Normal && !t.delRomFlag && t.pc == m.ctl.delRom * 256 + o / 4
            && t.calls == if o % 4 == 1 then ReturnStacks.Jsb(m.ctl.calls, NextWord(m.ctl.pc)) else m.ctl.calls
  {
    hide *;
    var c, o := Begun(m, k).ctl, Number(w);
    NormalCycle(m, w, k, x);
    BegunCalls(m, k);
    NextWordIs(m.ctl.pc);
    PendingOp(m, c, o, x);
  }

  lemma PendingOp(m: Act, c: Control, o: nat, x: Inputs)
    requires Inv(m) && m.ctl.delRomFlag && !m.fl.carry && o < 1024 && (o % 4 == 1 || o % 4 == 3)
    requires Proper(c.calls) && c.bank < 2 && c.pc == NextWord(m.ctl.pc) && c.calls == m.ctl.calls && !c.delRomFlag
    requires c.inst == Normal
    ensures var t := Selected(m.ctl, ControlOp(c, Decode(o), o, m.fl.carry, x));
            && t.inst == Normal && !t.delRomFlag && t.pc == m.ctl.delRom * 256 + o / 4
            && t.calls == if o % 4 == 1 then ReturnStacks.Jsb(m.ctl.calls, NextWord(m.ctl.pc)) else m.ctl.calls
  {
    InPageRange(c.pc, o / 4);
    hide InPage, ReturnStacks.Jsb;
  }

  lemma CallsReturn(c: Circular, ret: nat, words: seq<Word>, start: nat, clear: bool)
    requires |words| == 4096 && start < 4096 && Proper(c) && Returning(c, words, start, clear)
    ensures First(words, start, clear, ret) ==> Returning(ReturnStacks.Jsb(c, ret), words, start, clear)
    ensures First(words, start, clear, Return(c).0) && Returning(Return(c).1, words, start, clear)
  {
    hide First;
  }

  lemma Carryless(m: Act, w: Word, k: Model, x: Inputs)
    requires Inv(m) && ValidInputs(x) && m.ctl.inst == Normal && Decode(Number(w)) == DelSelRom
    ensures !CycleOn(m, w, k, x).fl.carry
  {
    NormalCycle(m, w, k, x);
    hide CycleOn, Begun, Number, Decode;
  }

  lemma BranchesLeaveClear(o: nat)
    requires o < 1024 && (o % 4 == 1 || o % 4 == 3)
    ensures LeavesCarryClear(o) && !TwoWord(o)
  {
  }

  /** One cycle from a state on track. */
  ghost predicate KeptOn(m: Act, t: Act, words: seq<Word>, start: nat, clear: bool)
    requires Inv(m) && Inv(t) && |words| == 4096 && start < 4096
  {
    KeepsToListing(m, t, words, start, clear) && OnTrack(t, words, start, clear)
  }

  lemma PendingCycle(m: Act, words: seq<Word>, k: Model, x: Inputs, start: nat, clear: bool)
    requires Inv(m) && ValidInputs(x) && |words| == 4096 && start < 4096 && OnTrack(m, words, start, clear)
    requires m.ctl.delRomFlag
    ensures m.ctl.pc < 4096 && Inv(CycleOn(m, words[m.ctl.pc], k, x))
    ensures KeptOn(m, CycleOn(m, words[m.ctl.pc], k, x), words, start, clear)
  {
    hide CycleOn, ListedAt, Number, First, Returning, LeavesCarryClear, Inv, TwoWord, Disassembled, ReturnStacks.Jsb,
        Return;
    PcRange(m);
    var w := words[m.ctl.pc];
    var t := CycleOn(m, w, k, x);
    CycleKeepsInv(m, w, k, x);
    PendingControl(m, w, k, x);
    BranchesLeaveClear(Number(w));
    NextIsFirst(words, start, clear, m.ctl.pc);
    BegunCalls(m, k);
    CallsReturn(m.ctl.calls, NextWord(m.ctl.pc), words, start, clear);
    FirstInStep(t, words, start, clear);
  }

  lemma SelftestTrack(m: Act, words: seq<Word>, k: Model, x: Inputs, start: nat, clear: bool)
    requires Inv(m) && ValidInputs(x) && |words| == 4096 && start < 4096 && OnTrack(m, words, start, clear)
    requires m.ctl.inst == Selftest
    ensures m.ctl.pc < 4096 && Inv(CycleOn(m, words[m.ctl.pc], k, x))
    ensures KeptOn(m, CycleOn(m, words[m.ctl.pc], k, x), words, start, clear)
  {
    PcRange(m);
    var w := words[m.ctl.pc];
    var t := CycleOn(m, w, k, x);
    CycleKeepsInv(m, w, k, x);
    SelftestControl(m, w, k, x);
    hide CycleOn, ListedAt, Number, First, Returning, LeavesCarryClear, Inv;
    CallsReturn(m.ctl.calls, 0, words, start, clear);
    if t.ctl.inst == Normal {
      FirstInStep(t, words, start, clear);
    }
  }

  lemma SelftestControl(m: Act, w: Word, k: Model, x: Inputs)
    requires Inv(m) && ValidInputs(x) && m.ctl.inst == Selftest
    ensures var t := CycleOn(m, w, k, x).ctl;
            && !m.ctl.delRomFlag && !t.delRomFlag && t.inst != ThenGoto
            && (t.inst == Selftest ==> t.calls == m.ctl.calls)
            && (t.inst == Normal ==> (t.pc, t.calls) == Return(m.ctl.calls))
  {
    SelftestCycle(m, w, k, x);
    hide CycleOn, Update, Polled;
  }

  lemma ThenControl(m: Act, w: Word, k: Model, x: Inputs)
    requires Inv(m) && ValidInputs(x) && m.ctl.inst == ThenGoto
    ensures var t, next := CycleOn(m, w, k, x).ctl, NextWord(m.ctl.pc);
            && !m.ctl.delRomFlag && !t.delRomFlag && t.inst == Normal && t.calls == m.ctl.calls
            && t.pc == if m.fl.carry then next else next / 1024 * 1024 + Number(w)
  {
    hide Number, Polled;
  }

  lemma ThenTrack(m: Act, words: seq<Word>, k: Model, x: Inputs, start: nat, clear: bool)
    requires Inv(m) && ValidInputs(x) && |words| == 4096 && start < 4096 && OnTrack(m, words, start, clear)
    requires m.ctl.inst == ThenGoto
    requires m.ctl.pc < 4096 && WordTame(words, start, clear, m.ctl.pc)
    ensures Inv(CycleOn(m, words[m.ctl.pc], k, x))
    ensures KeptOn(m, CycleOn(m, words[m.ctl.pc], k, x), words, start, clear)
  {
    var w := words[m.ctl.pc];
    var t := CycleOn(m, w, k, x);
    CycleKeepsInv(m, w, k, x);
    ThenControl(m, w, k, x);
    hide CycleOn, ListedAt, Number, First, Returning, LeavesCarryClear, Inv;
    NextIsFirst(words, start, clear, m.ctl.pc);
    FirstInStep(t, words, start, clear);
  }

  lemma TestTrack(m: Act, words: seq<Word>, k: Model, x: Inputs, start: nat, clear: bool)
    requires Inv(m) && ValidInputs(x) && |words| == 4096 && start < 4096 && OnTrack(m, words, start, clear)
    requires m.ctl.inst == Normal && !m.ctl.delRomFlag && m.ctl.pc < 4096
    requires WordTame(words, start, clear, m.ctl.pc) && TwoWord(Number(words[m.ctl.pc]))
    ensures Inv(CycleOn(m, words[m.ctl.pc], k, x))
    ensures KeptOn(m, CycleOn(m, words[m.ctl.pc], k, x), words, start, clear)
  {
    var w := words[m.ctl.pc];
    CycleKeepsInv(m, w, k, x);
    hide CycleOn, ListedAt, Number, First, Returning, LeavesCarryClear, TwoWord, Inv, FirstTame;
    PlainControl(m, w, k, x);
    StaysInStep(m, words, k, x, start, clear);
  }

  /** A tame word that is not a test leads to a first word, and a delayed select to a tame branch. */
  lemma PlainLands(m: Act, t: Control, words: seq<Word>, start: nat, clear: bool, o: nat, next: nat)
    requires Proper(m.ctl.calls) && |words| == 4096 && start < 4096 && o < 1024 && next < 4096
    requires AfterPlain(m, t, o, next) && FirstTame(words, start, clear, next, o) && First(words, start, clear, next)
    requires First(words, start, clear, Return(m.ctl.calls).0)
    ensures t.inst == if Decode(o) == RomSelftest then Selftest else Normal
    ensures t.inst == Normal ==> First(words, start, clear, t.pc)
    ensures t.calls == if Decode(o) == Jsb then ReturnStacks.Jsb(m.ctl.calls, next)
                       else if Decode(o) == ReturnOp then Return(m.ctl.calls).1 else m.ctl.calls
    ensures t.delRomFlag <==> Decode(o) == DelSelRom
    ensures t.delRomFlag ==> t.inst == Normal && t.pc == next && SelectTame(words, start, clear, t.pc, t.delRom)
  {
    hide First, Decode, InPage, SelectTame, Return, ReturnStacks.Jsb;
  }

  lemma PlainTrack(m: Act, words: seq<Word>, k: Model, x: Inputs, start: nat, clear: bool)
    requires Inv(m) && ValidInputs(x) && |words| == 4096 && start < 4096 && OnTrack(m, words, start, clear)
    requires m.ctl.inst == Normal && !m.ctl.delRomFlag && m.ctl.pc < 4096
    requires WordTame(words, start, clear, m.ctl.pc) && !TwoWord(Number(words[m.ctl.pc]))
    ensures Inv(CycleOn(m, words[m.ctl.pc], k, x))
    ensures KeptOn(m, CycleOn(m, words[m.ctl.pc], k, x), words, start, clear)
  {
    hide CycleOn, ListedAt, Number, First, Returning, LeavesCarryClear, TwoWord, Inv, Decode, InPage, SelectTame,
        Return;
    hide Disassembled, ReturnStacks.Jsb, AfterPlain, FirstTame;
    var w, o, next := words[m.ctl.pc], Number(words[m.ctl.pc]), NextWord(m.ctl.pc);
    var t := CycleOn(m, w, k, x);
    CycleKeepsInv(m, w, k, x);
    PlainControl(m, w, k, x);
    NextIsFirst(words, start, clear, m.ctl.pc);
    BegunCalls(m, k);
    CallsReturn(m.ctl.calls, next, words, start, clear);
    PlainLands(m, t.ctl, words, start, clear, o, next);
    if Decode(o) == DelSelRom {
      Carryless(m, w, k, x);
    }
    if t.ctl.inst == Normal {
      FirstInStep(t, words, start, clear);
    }
  }

  /** Every cycle of a tame program stays on track. */
  lemma CycleOnTrack(m: Act, words: seq<Word>, k: Model, x: Inputs, start: nat, clear: bool)
    requires Inv(m) && ValidInputs(x) && |words| == 4096 && start < 4096 && Tame(words, start, clear)
    requires OnTrack(m, words, start, clear)
    ensures m.ctl.pc < 4096 && Inv(CycleOn(m, words[m.ctl.pc], k, x))
    ensures KeptOn(m, CycleOn(m, words[m.ctl.pc], k, x), words, start, clear)
  {
    PcRange(m);
    assert WordTame(words, start, clear, m.ctl.pc);
    hide CycleOn, OnTrack, KeptOn, WordTame, Tame, Inv, TwoWord, Number;
    if m.ctl.inst == Selftest {
      SelftestTrack(m, words, k, x, start, clear);
    } else if m.ctl.inst == ThenGoto {
      ThenTrack(m, words, k, x, start, clear);
    } else if m.ctl.delRomFlag {
      PendingCycle(m, words, k, x, start, clear);
    } else if TwoWord(Number(words[m.ctl.pc])) {
      TestTrack(m, words, k, x, start, clear);
    } else {
      PlainTrack(m, words, k, x, start, clear);
    }
  }

  /** Every run of a tame program from power on, whatever the inputs, keeps to the listing. */
  lemma {:induction false} TameRun(words: seq<Word>, k: Model, xs: seq<Inputs>, start: nat, clear: bool)
    requires |words| == 4096 && (forall x :: x in xs ==> ValidInputs(x)) && start < 4096
    requires Tame(words, start, clear) && First(words, start, clear, 0)
    ensures Inv(PowerOn()) && RunKeepsToListing(PowerOn(), words, k, xs, start, clear)
    ensures OnTrack(After(PowerOn(), words, k, xs), words, start, clear)
    decreases |xs|
  {
    PowerOnTrack(words, start, clear);
    hide PowerOn, CycleOn, OnTrack, KeepsToListing, Tame, First, Inv;
    if xs != [] {
      var n := |xs| - 1;
      TameRun(words, k, xs[..n], start, clear);
      AfterNext(PowerOn(), words, k, xs);
      CycleOnTrack(After(PowerOn(), words, k, xs[..n]), words, k, xs[n], start, clear);
    }
  }

  lemma PowerOnTrack(words: seq<Word>, start: nat, clear: bool)
    requires |words| == 4096 && start < 4096 && First(words, start, clear, 0)
    ensures Inv(PowerOn()) && OnTrack(PowerOn(), words, start, clear) && InStep(PowerOn(), words, start, clear)
  {
    hide ListedAt;
  }

  /** So for every tame program, in every run from power on, every goto that the listing shows as
      unconditional is taken, but for the first word of the listing. */
  lemma TameGotoTaken(words: seq<Word>, k: Model, xs: seq<Inputs>, x: Inputs, start: nat, clear: bool)
    requires |words| == 4096 && (forall y :: y in xs ==> ValidInputs(y)) && ValidInputs(x) && start < 4096 && xs != []
    requires Tame(words, start, clear) && First(words, start, clear, 0)
    ensures Inv(PowerOn())
    ensures var s := After(PowerOn(), words, k, xs);
            s.ctl.inst == Normal && s.ctl.pc != start && ShownUnconditional(s, words, start, clear)
            ==> s.ctl.pc < 4096
                && CycleOn(s, words[s.ctl.pc], k, x).ctl.pc == GotoTarget(s.ctl, Number(words[s.ctl.pc]))
  {
    hide *;
    TameRun(words, k, xs, start, clear);
    UnconditionalGotoTaken(PowerOn(), words, k, xs, x, start, clear);
  }

  lemma {:induction false} PlainWordsListed(words: seq<Word>, start: nat, clear: bool, n: nat)
    requires |words| == 4096 && start < 4096 && n < 4096 && forall a :: 0 <= a < 4096 ==> Number(words[a]) == 0
    ensures Listed(words, start, clear, n).inst == Normal
  {
    hide Disassembled, Number;
    if n > 0 {
      PlainWordsListed(words, start, clear, n - 1);
      DisassembledInst(Listed(words, start, clear, n - 1), 0);
    }
  }

  /** The condition can be met: a program of empty words is tame. */
  lemma EmptyIsTame(words: seq<Word>, start: nat, clear: bool)
    requires |words| == 4096 && start < 4096 && forall a :: 0 <= a < 4096 ==> Number(words[a]) == 0
    ensures Tame(words, start, clear) && First(words, start, clear, 0)
  {
    hide Listed, Number;
    forall a | 0 <= a < 4096
      ensures First(words, start, clear, a)
    {
      PlainWordsListed(words, start, clear, WordsFrom(start, a));
    }
    hide First;
    assert !TwoWord(0) && Decode(0) == Nop;
    hide TwoWord, Decode;
    forall a | 0 <= a < 4096
      ensures WordTame(words, start, clear, a)
    {
      FirstIsNormal(words, start, clear, a);
    }
  }

  lemma FirstIsNormal(words: seq<Word>, start: nat, clear: bool, a: nat)
    requires |words| == 4096 && start < 4096 && First(words, start, clear, a)
    ensures a < 4096 && ListedAt(words, start, clear, a).inst == Normal
  {
    hide ListedAt;
  }

  /** A program with a test, a jsb, a goto, a goto behind a delayed select, and a return. */
  ghost predicate Sample(words: seq<Word>)
    requires |words| == 4096
  {
    && Number(words[0]) == 20     // test status bit 0, and go to 4 if it is clear
    && Number(words[1]) == 4
    && Number(words[2]) == 17     // jsb 4
    && Number(words[3]) == 3      // goto 0
    && Number(words[4]) == 116    // delayed select of ROM 1
    && Number(words[5]) == 3      // goto 0, in ROM 1: 256
    && Number(words[256]) == 528  // return
    && forall a :: 6 <= a < 4096 && a != 256 ==> Number(words[a]) == 0
  }

  lemma SampleTests(words: seq<Word>, a: nat)
    requires |words| == 4096 && a < 4096 && Sample(words)
    ensures a != 1 ==> (TwoWord(Number(words[a])) <==> a == 0)
  {
    hide Number;
    assert TwoWord(20) && !TwoWord(17) && !TwoWord(3) && !TwoWord(116) && !TwoWord(528) && !TwoWord(0);
    hide TwoWord;
  }

  lemma {:induction false} SampleListed(words: seq<Word>, clear: bool, n: nat)
    requires |words| == 4096 && n < 4096 && Sample(words)
    ensures Listed(words, 0, clear, n).inst == if n == 1 then ThenGoto else Normal
    decreases n
  {
    hide Disassembled, Number, TwoWord, Sample;
    if n > 0 {
      SampleListed(words, clear, n - 1);
      SampleTests(words, n - 1);
      DisassembledInst(Listed(words, 0, clear, n - 1), Number(words[n - 1]));
    }
  }

  lemma SampleFirst(words: seq<Word>, clear: bool, a: nat)
    requires |words| == 4096 && a < 4096 && Sample(words)
    ensures ListedAt(words, 0, clear, a).inst == if a == 1 then ThenGoto else Normal
    ensures First(words, 0, clear, a) <==> a != 1
  {
    hide Listed, Sample, Number;
    SampleListed(words, clear, a);
  }

  lemma SampleTargets(words: seq<Word>, clear: bool, next: nat, o: nat)
    requires |words| == 4096 && next < 4096 && First(words, 0, clear, 0) && First(words, 0, clear, 4)
    requires First(words, 0, clear, 256)
    requires || o in {0, 20, 528} || (o == 17 && next == 3) || (o == 3 && (next == 4 || next == 6))
             || (o == 116 && next == 5 && Number(words[5]) == 3)
    ensures FirstTame(words, 0, clear, next, o)
  {
    hide First, Number;
  }

  lemma SampleWord(words: seq<Word>, clear: bool, a: nat)
    requires |words| == 4096 && a < 4096 && Sample(words)
    ensures WordTame(words, 0, clear, a)
  {
    hide ListedAt, First, Number, TwoWord, FirstTame;
    SampleFirst(words, clear, a);
    SampleFirst(words, clear, 0);
    SampleFirst(words, clear, 4);
    SampleFirst(words, clear, 256);
    SampleTests(words, a);
    if a != 1 {
      SampleTargets(words, clear, NextWord(a), Number(words[a]));
    }
  }

  /** The condition holds of this program, listed from word 0. */
  lemma SampleIsTame(words: seq<Word>, clear: bool)
    requires |words| == 4096 && Sample(words)
    ensures Tame(words, 0, clear) && First(words, 0, clear, 0)
  {
    hide WordTame, Sample, First;
    forall a | 0 <= a < 4096
      ensures WordTame(words, 0, clear, a)
    {
      SampleWord(words, clear, a);
    }
    SampleFirst(words, clear, 0);
  }
}
