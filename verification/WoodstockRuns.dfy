/** Properties of whole runs of the Woodstock processor: what a listing claims about the carry, and the
    ROM self-test. */
module WoodstockRuns {
  import DigitOps
  import opened ReturnStacks
  import opened WoodstockCrc
  import opened WoodstockSpec
  import opened WoodstockDis

  // ---------- what a listing knows about the carry ----------

  /** The address n words on, past the last address back at zero. */
  function AddrAfter(start: nat, n: nat): (a: nat)
    requires start < 4096 && n < 4096
    ensures a < 4096
  {
    if start + n < 4096 then start + n else start + n - 4096
  }

  function WordsFrom(start: nat, addr: nat): (n: nat)
    requires start < 4096 && addr < 4096
    ensures n < 4096 && AddrAfter(start, n) == addr
  {
    if addr >= start then addr - start else addr + 4096 - start
  }

  lemma NextAddr(a: nat)
    requires a < 4096
    ensures (a + 1) % 4096 == if a == 4095 then 0 else a + 1
  {
  }

  lemma DisassembledFacts(d: Dis, o: nat)
    requires o < 1024
    ensures var e := Disassembled(d, o);
            && e.addr == (d.addr + 1) % 4096
            && (e.clear <==> d.inst == ThenGoto || LeavesCarryClear(o))
            && (d.inst != ThenGoto && o % 4 == 3 ==> (e.flow == UncondBranch <==> d.clear))
  {
    hide LeavesCarryClear, TwoWord, MiscInfo, Masked, InPage;
  }

  /** The disassembler's variables after listing n words of a bank from an address on. The carry flag is
      whatever its caller left it at. */
  function Listed(words: seq<Word>, start: nat, clear: bool, n: nat): (d: Dis)
    requires |words| == 4096 && start < 4096 && n < 4096
    ensures d.addr == AddrAfter(start, n)
    decreases n
  {
    if n == 0 then Dis(start, Normal, clear, 0, 0, NoBranch, 0)
    else
      var d := Listed(words, start, clear, n - 1);
      NextAddr(d.addr);
      DisassembledFacts(d, Number(words[d.addr]));
      Disassembled(d, Number(words[d.addr]))
  }

  /** The listing's variables when it comes to an address. */
  function ListedAt(words: seq<Word>, start: nat, clear: bool, addr: nat): (d: Dis)
    requires |words| == 4096 && start < 4096 && addr < 4096
    ensures d.addr == addr
  {
    Listed(words, start, clear, WordsFrom(start, addr))
  }

  lemma ListedNext(words: seq<Word>, start: nat, clear: bool, addr: nat)
    requires |words| == 4096 && start < 4096 && addr < 4096 && (addr + 1) % 4096 != start
    ensures (addr + 1) % 4096 < 4096
    ensures ListedAt(words, start, clear, (addr + 1) % 4096)
            == Disassembled(ListedAt(words, start, clear, addr), Number(words[addr]))
  {
    hide Disassembled, Number;
    NextAddr(addr);
    assert WordsFrom(start, (addr + 1) % 4096) == WordsFrom(start, addr) + 1;
  }

  /** The carry after a cycle comes only from arithmetic that can set it, or from a test. */
  lemma CarrySource(m: Act, w: Word, k: Model, x: Inputs)
    requires Inv(m) && ValidInputs(x) && CycleOn(m, w, k, x).fl.carry
    ensures m.ctl.inst == Normal && (!LeavesCarryClear(Number(w)) || CycleOn(m, w, k, x).ctl.inst == ThenGoto)
  {
    if m.ctl.inst == Normal {
      NormalCycle(m, w, k, x);
      hide CycleOn, Begun, Number, Decode, FlagsOp, ControlOp, LeavesCarryClear, Tests;
      FlagsCarry(Begun(m, k).fl, Number(w), m.ctl.pc, x);
      TestEntersThenGoto(Begun(m, k).ctl, Number(w), m.fl.carry, x);
    } else {
      hide Number, Polled, Update, FlagsOp, ControlOp, Decode;
    }
  }

  lemma FlagsCarry(f: Flags, o: nat, prevPc: nat, x: Inputs)
    requires |f.s| == 16 && |f.pChange| == 3 && !f.carry && o < 1024 && FlagsOp(f, Decode(o), o, prevPc, x).carry
    ensures Tests(Decode(o), o) || !LeavesCarryClear(o)
  {
    ArithTables(o / 32);
    if o % 4 == 0 {
      MiscAgrees(o);
    }
    hide DecodeMisc, CanSetCarry;
  }

  lemma TestEntersThenGoto(c: Control, o: nat, prevCarry: bool, x: Inputs)
    requires Proper(c.calls) && c.bank < 2
    ensures Tests(Decode(o), o) ==> ControlOp(c, Decode(o), o, prevCarry, x).inst == ThenGoto
  {
    hide Decode, Tests;
  }

  lemma ArithOnly(o: nat)
    requires o < 1024 && !LeavesCarryClear(o)
    ensures o % 4 == 2
  {
  }

  /** Where an operation that does not branch goes on: at the next word, or at the same place of the page
      that a pending select names. */
  function Landing(c: Control): nat {
    if c.delRomFlag then c.delRom * 256 + (c.pc + 1) % 4096 % 256 else (c.pc + 1) % 4096
  }

  /** The operations that can leave the carry set, with the pointer at p. */
  predicate LeavesCarry(o: nat, p: nat)
    requires o < 1024
  {
    !LeavesCarryClear(o) && (NoDigits(o, p) ==> CarriesIn(o / 32))
  }

  lemma CarryLeft(o: nat, p: nat, carryOut: bool)
    requires o < 1024 && !LeavesCarryClear(o)
    ensures ArithCarry(o, p, carryOut) ==> LeavesCarry(o, p)
    ensures LeavesCarry(o, p) && carryOut ==> ArithCarry(o, p, carryOut)
  {
    ArithTables(o / 32);
    hide CanSetCarry;
  }

  lemma ArithLands(m: Act, w: Word, k: Model, x: Inputs)
    requires Inv(m) && ValidInputs(x) && m.ctl.inst == Normal && !LeavesCarryClear(Number(w))
    ensures var t := CycleOn(m, w, k, x);
            && t.ctl.pc == Landing(m.ctl) && t.ctl.inst == Normal && !t.ctl.delRomFlag
            && (t.fl.carry <==> ArithCarry(Number(w), m.fl.p, x.carryOut))
  {
    hide *;
    var o, b := Number(w), Begun(m, k);
    NormalCycle(m, w, k, x);
    ArithOnly(o);
    ArithTables(o / 32);
    CarryTable(o);
    ArithControl(b.ctl, o, m.fl.carry, x);
    CarryAfter(b.fl, o, m.ctl.pc, x);
    LandingIs(m.ctl, ControlOp(b.ctl, Decode(o), o, m.fl.carry, x));
  }

  lemma ArithControl(c: Control, o: nat, prevCarry: bool, x: Inputs)
    requires Proper(c.calls) && c.bank < 2 && o % 4 == 2 && Carries(o / 32)
    ensures ControlOp(c, Decode(o), o, prevCarry, x) == c
  {
  }

  lemma CarryAfter(f: Flags, o: nat, prevPc: nat, x: Inputs)
    requires |f.s| == 16 && |f.pChange| == 3 && o < 1024 && o % 4 == 2 && Carries(o / 32)
    ensures FlagsOp(f, Decode(o), o, prevPc, x).carry <==> ArithCarry(o, f.p, x.carryOut)
  {
  }

  lemma LandingIs(before: Control, c: Control)
    requires c.pc == (before.pc + 1) % 4096
    ensures Selected(before, c).pc == Landing(before)
    ensures Selected(before, c).inst == c.inst && Selected(before, c).delRomFlag == c.delRomFlag
  {
  }

  lemma CarryTable(o: nat)
    requires o < 1024 && o % 4 == 2
    ensures LeavesCarryClear(o) <==> !CanSetCarry(o / 32)
  {
    hide CanSetCarry;
  }

  /** The listing shows the word at the program counter as the first or the second of an instruction, and
      so does the interpreter take it. A listing has no self-test under way. */
  ghost predicate InStep(m: Act, words: seq<Word>, start: nat, clear: bool)
    requires Inv(m) && |words| == 4096 && start < 4096
  {
    m.ctl.inst == Selftest || ListedAt(words, start, clear, m.ctl.pc).inst == m.ctl.inst
  }

  /** What the listing says of the carry at the address of the next word. */
  ghost predicate ListedClear(m: Act, words: seq<Word>, start: nat, clear: bool)
    requires Inv(m) && |words| == 4096 && start < 4096
  {
    ListedAt(words, start, clear, m.ctl.pc).clear
  }

  lemma PcRange(m: Act)
    requires Inv(m)
    ensures m.ctl.pc < 4096
  {
  }

  /** What the listing says of the carry at the next word is true there. */
  ghost predicate Truthful(m: Act, words: seq<Word>, k: Model, x: Inputs, start: nat, clear: bool)
    requires Inv(m) && ValidInputs(x) && |words| == 4096 && start < 4096
  {
    PcRange(m);
    var t := CycleOn(m, words[m.ctl.pc], k, x);
    CycleKeepsInv(m, words[m.ctl.pc], k, x);
    t.ctl.inst == Normal && t.ctl.pc != start && ListedClear(t, words, start, clear) ==> !t.fl.carry
  }

  /** The one way for a listing to be wrong about the carry: an operation that can set it is taken for the
      second word of a test, or goes on, by a pending select, at a word where the carry is shown clear. */
  ghost predicate Misled(m: Act, words: seq<Word>, start: nat, clear: bool)
    requires Inv(m) && |words| == 4096 && start < 4096
  {
    PcRange(m);
    && m.ctl.inst == Normal && LeavesCarry(Number(words[m.ctl.pc]), m.fl.p) && Landing(m.ctl) != start
    && if m.ctl.delRomFlag then ListedAt(words, start, clear, Landing(m.ctl)).clear
       else ListedAt(words, start, clear, m.ctl.pc).inst == ThenGoto
  }

  lemma LandingRange(m: Act)
    requires Inv(m)
    ensures Landing(m.ctl) < 4096
  {
  }

  lemma ListedAfterArith(m: Act, words: seq<Word>, start: nat, clear: bool)
    requires Inv(m) && |words| == 4096 && start < 4096 && !m.ctl.delRomFlag && Landing(m.ctl) != start
    requires m.ctl.pc < 4096 && !LeavesCarryClear(Number(words[m.ctl.pc]))
    ensures Landing(m.ctl) < 4096
    ensures ListedAt(words, start, clear, Landing(m.ctl)).clear
            <==> ListedAt(words, start, clear, m.ctl.pc).inst == ThenGoto
  {
    hide ListedAt, Disassembled, LeavesCarryClear, Number, Inv;
    ListedNext(words, start, clear, m.ctl.pc);
    DisassembledFacts(ListedAt(words, start, clear, m.ctl.pc), Number(words[m.ctl.pc]));
    ListedAtInst(words, start, clear, m.ctl.pc);
  }

  lemma MisledMeans(m: Act, words: seq<Word>, start: nat, clear: bool)
    requires Inv(m) && |words| == 4096 && start < 4096
    ensures m.ctl.pc < 4096 && Landing(m.ctl) < 4096
    ensures Misled(m, words, start, clear)
            <==> m.ctl.inst == Normal && LeavesCarry(Number(words[m.ctl.pc]), m.fl.p) && Landing(m.ctl) != start
                 && ListedAt(words, start, clear, Landing(m.ctl)).clear
    ensures LeavesCarry(Number(words[m.ctl.pc]), m.fl.p) ==> !LeavesCarryClear(Number(words[m.ctl.pc]))
  {
    PcRange(m);
    LandingRange(m);
    if !m.ctl.delRomFlag && Landing(m.ctl) != start && !LeavesCarryClear(Number(words[m.ctl.pc])) {
      ListedAfterArith(m, words, start, clear);
    }
    hide ListedAt, LeavesCarryClear, Number, Landing;
  }

  lemma TruthfulUnlessMisled(m: Act, words: seq<Word>, k: Model, x: Inputs, start: nat, clear: bool)
    requires Inv(m) && ValidInputs(x) && |words| == 4096 && start < 4096 && !Misled(m, words, start, clear)
    ensures Truthful(m, words, k, x, start, clear)
  {
    MisledMeans(m, words, start, clear);
    var t := CycleOn(m, words[m.ctl.pc], k, x);
    hide Misled, CycleOn, ListedAt, LeavesCarryClear, LeavesCarry, Number, Landing, Inv;
    if t.ctl.inst == Normal && t.fl.carry {
      CarrySource(m, words[m.ctl.pc], k, x);
      ArithLands(m, words[m.ctl.pc], k, x);
      CarryLeft(Number(words[m.ctl.pc]), m.fl.p, x.carryOut);
    }
  }

  lemma MisledIsUntruthful(m: Act, words: seq<Word>, k: Model, x: Inputs, start: nat, clear: bool)
    requires Inv(m) && ValidInputs(x) && |words| == 4096 && start < 4096 && Misled(m, words, start, clear) && x.carryOut
    ensures !Truthful(m, words, k, x, start, clear)
  {
    MisledMeans(m, words, start, clear);
    hide Misled, CycleOn, ListedAt, LeavesCarryClear, LeavesCarry, Number, Landing, Inv;
    ArithLands(m, words[m.ctl.pc], k, x);
    CarryLeft(Number(words[m.ctl.pc]), m.fl.p, x.carryOut);
  }

  /** For every state, in step or not: whatever the inputs of a cycle, the listing is right about the carry
      it leaves, unless the state is misled. */
  lemma ListedCarryIff(m: Act, words: seq<Word>, k: Model, start: nat, clear: bool)
    requires Inv(m) && |words| == 4096 && start < 4096
    ensures (forall x | ValidInputs(x) :: Truthful(m, words, k, x, start, clear)) <==> !Misled(m, words, start, clear)
  {
    hide *;
    if Misled(m, words, start, clear) {
      var x := Inputs(true, 0, false, 0, false, false, false, false);
      NoKeys(x);
      MisledIsUntruthful(m, words, k, x, start, clear);
    } else {
      forall x | ValidInputs(x) ensures Truthful(m, words, k, x, start, clear) {
        TruthfulUnlessMisled(m, words, k, x, start, clear);
      }
    }
  }

  lemma NoKeys(x: Inputs)
    requires x.digits == 0 && x.keyCode == 0
    ensures ValidInputs(x)
  {
  }

  lemma GotoControl(c: Control, o: nat, x: Inputs)
    requires Proper(c.calls) && c.bank < 2 && o < 1024 && o % 4 == 3
    ensures ControlOp(c, Decode(o), o, false, x) == c.(pc := InPage(c.pc, o / 4))
  {
  }

  /** Where a goto goes when it is taken: within the page of the next word, or within the page that a
      pending select names. */
  function GotoTarget(c: Control, o: nat): nat {
    InPage(if c.delRomFlag then c.delRom * 256 else (c.pc + 1) % 4096, o / 4)
  }

  lemma GotoTaken(m: Act, w: Word, k: Model, x: Inputs)
    requires Inv(m) && ValidInputs(x) && m.ctl.inst == Normal && !m.fl.carry && Number(w) % 4 == 3
    ensures CycleOn(m, w, k, x).ctl.pc == GotoTarget(m.ctl, Number(w))
  {
    var o, c := Number(w), Begun(m, k).ctl;
    NormalCycle(m, w, k, x);
    PcRange(m);
    hide *;
    GotoControl(c, o, x);
    SelectedGoto(m.ctl, c, o);
  }

  lemma SelectedGoto(before: Control, c: Control, o: nat)
    requires before.pc < 4096 && c.pc == (before.pc + 1) % 4096 && o < 1024
    ensures Selected(before, c.(pc := InPage(c.pc, o / 4))).pc == GotoTarget(before, o)
  {
    InPageRange(c.pc, o / 4);
    PageOf(before.delRom, o / 4);
    hide InPage;
  }

  lemma PageOf(page: nat, low: nat)
    requires low < 256
    ensures InPage(page * 256, low) == page * 256 + low
  {
  }

  /** The listing shows a goto without a condition where the program counter stands. */
  ghost predicate ShownUnconditional(m: Act, words: seq<Word>, start: nat, clear: bool)
    requires Inv(m) && |words| == 4096 && start < 4096
  {
    var d, o := ListedAt(words, start, clear, m.ctl.pc), Number(words[m.ctl.pc]);
    d.inst == Normal && o % 4 == 3 && Disassembled(d, o).flow == UncondBranch
  }

  lemma ShownMeansClear(m: Act, words: seq<Word>, start: nat, clear: bool)
    requires Inv(m) && |words| == 4096 && start < 4096 && ShownUnconditional(m, words, start, clear)
    ensures ListedClear(m, words, start, clear)
  {
    PcRange(m);
    DisassembledFacts(ListedAt(words, start, clear, m.ctl.pc), Number(words[m.ctl.pc]));
    hide Disassembled, ListedAt, Number;
  }

  /** The state after some cycles that all fetch from one bank. */
  ghost function After(m: Act, words: seq<Word>, k: Model, xs: seq<Inputs>): (t: Act)
    requires Inv(m) && |words| == 4096 && forall x :: x in xs ==> ValidInputs(x)
    ensures Inv(t)
    decreases |xs|
  {
    if xs == [] then m
    else
      var t := After(m, words, k, xs[..|xs| - 1]);
      PcRange(t);
      assert xs[|xs| - 1] in xs;
      CycleKeepsInv(t, words[t.ctl.pc], k, xs[|xs| - 1]);
      CycleOn(t, words[t.ctl.pc], k, xs[|xs| - 1])
  }

  /** How the disassembler's instruction state goes on. */
  lemma DisassembledInst(d: Dis, o: nat)
    requires o < 1024 && d.inst != Selftest
    ensures Disassembled(d, o).inst == if d.inst == Normal && TwoWord(o) then ThenGoto else Normal
  {
    hide LeavesCarryClear, TwoWord, MiscInfo, Masked, InPage;
  }

  lemma {:induction false} ListedInst(words: seq<Word>, start: nat, clear: bool, n: nat)
    requires |words| == 4096 && start < 4096 && n < 4096
    ensures Listed(words, start, clear, n).inst != Selftest
  {
    hide Disassembled, Number;
    if n > 0 {
      ListedInst(words, start, clear, n - 1);
      var d := Listed(words, start, clear, n - 1);
      DisassembledInst(d, Number(words[d.addr]));
    }
  }

  lemma ListedAtInst(words: seq<Word>, start: nat, clear: bool, addr: nat)
    requires |words| == 4096 && start < 4096 && addr < 4096
    ensures ListedAt(words, start, clear, addr).inst != Selftest
  {
    ListedInst(words, start, clear, WordsFrom(start, addr));
  }

  /** The interpreter's instruction state goes on as the disassembler's does. */
  lemma NextInst(m: Act, w: Word, k: Model, x: Inputs)
    requires Inv(m) && ValidInputs(x) && m.ctl.inst != Selftest
    ensures var t := CycleOn(m, w, k, x).ctl.inst;
            t == ThenGoto <==> m.ctl.inst == Normal && TwoWord(Number(w))
  {
    var c := m.ctl;
    var d := Dis(c.pc, c.inst, false, if c.delRomFlag then SELECT_MASK else 0, c.delRom * 256, NoBranch, 0);
    DecodersAgree(m, w, k, x, d);
    hide CycleOn, Disassembled, Jumps, Departs, TwoWord, Number;
  }

  /** As long as the program counter does not leave the sequence of words, the interpreter stays in step. */
  lemma StaysInStep(m: Act, words: seq<Word>, k: Model, x: Inputs, start: nat, clear: bool)
    requires Inv(m) && ValidInputs(x) && |words| == 4096 && start < 4096 && InStep(m, words, start, clear)
    requires m.ctl.inst != Selftest
    ensures m.ctl.pc < 4096 && Inv(CycleOn(m, words[m.ctl.pc], k, x))
    ensures var t := CycleOn(m, words[m.ctl.pc], k, x);
            t.ctl.pc == (m.ctl.pc + 1) % 4096 != start ==> InStep(t, words, start, clear)
  {
    hide CycleOn, Inv, Disassembled, Number, TwoWord, ListedAt;
    PcRange(m);
    var t, o := CycleOn(m, words[m.ctl.pc], k, x), Number(words[m.ctl.pc]);
    CycleKeepsInv(m, words[m.ctl.pc], k, x);
    ListedAtInst(words, start, clear, m.ctl.pc);
    var d := ListedAt(words, start, clear, m.ctl.pc);
    DisassembledInst(d, o);
    NextInst(m, words[m.ctl.pc], k, x);
    if t.ctl.pc == (m.ctl.pc + 1) % 4096 != start {
      ListedNext(words, start, clear, m.ctl.pc);
    }
  }

  /** Two successive states of a run: wherever control leaves the sequence of words it arrives in step, and
      a pending select carries away no operation that can set the carry. */
  ghost predicate KeepsToListing(s: Act, t: Act, words: seq<Word>, start: nat, clear: bool)
    requires Inv(s) && Inv(t) && |words| == 4096 && start < 4096
  {
    PcRange(s);
    && (s.ctl.inst == Selftest || t.ctl.pc != (s.ctl.pc + 1) % 4096 || t.ctl.pc == start
        ==> InStep(t, words, start, clear))
    && (s.ctl.delRomFlag ==> LeavesCarryClear(Number(words[s.ctl.pc])))
  }

  ghost predicate RunKeepsToListing(m: Act, words: seq<Word>, k: Model, xs: seq<Inputs>, start: nat, clear: bool)
    requires Inv(m) && |words| == 4096 && (forall x :: x in xs ==> ValidInputs(x)) && start < 4096
    decreases |xs|
  {
    if xs == [] then InStep(m, words, start, clear)
    else
      var front := xs[..|xs| - 1];
      RunKeepsToListing(m, words, k, front, start, clear)
      && KeepsToListing(After(m, words, k, front), After(m, words, k, xs), words, start, clear)
  }

  lemma AfterNext(m: Act, words: seq<Word>, k: Model, xs: seq<Inputs>)
    requires Inv(m) && |words| == 4096 && (forall x :: x in xs ==> ValidInputs(x)) && xs != []
    ensures var n := |xs| - 1; var p := After(m, words, k, xs[..n]);
            ValidInputs(xs[n]) && p.ctl.pc < 4096 && After(m, words, k, xs) == CycleOn(p, words[p.ctl.pc], k, xs[n])
  {
    assert xs[|xs| - 1] in xs;
    PcRange(After(m, words, k, xs[..|xs| - 1]));
    hide CycleOn;
  }

  /** A run that leaves the sequence of words only for words the listing takes as it does is in step
      throughout, self-tests included. */
  lemma {:induction false} RunInStep(m: Act, words: seq<Word>, k: Model, xs: seq<Inputs>, start: nat, clear: bool)
    requires Inv(m) && |words| == 4096 && (forall x :: x in xs ==> ValidInputs(x)) && start < 4096
    requires RunKeepsToListing(m, words, k, xs, start, clear)
    ensures InStep(After(m, words, k, xs), words, start, clear)
    decreases |xs|
  {
    hide CycleOn, InStep, LeavesCarryClear, LeavesCarry, Number, Inv;
    if xs != [] {
      var n := |xs| - 1;
      RunInStep(m, words, k, xs[..n], start, clear);
      AfterNext(m, words, k, xs);
      var p := After(m, words, k, xs[..n]);
      if p.ctl.inst != Selftest {
        StaysInStep(p, words, k, xs[n], start, clear);
      }
    }
  }

  lemma InStepNotMisled(s: Act, t: Act, words: seq<Word>, start: nat, clear: bool)
    requires Inv(s) && Inv(t) && |words| == 4096 && start < 4096 && InStep(s, words, start, clear)
    requires KeepsToListing(s, t, words, start, clear)
    ensures !Misled(s, words, start, clear)
  {
    hide ListedAt, LeavesCarryClear, Number, Landing;
  }

  /** In every run of a bank that leaves the sequence of words only for words the listing takes as the
      interpreter does, every goto the listing shows as unconditional is taken, from the second instruction
      on. Only the first word of the listing is excepted, for there the carry flag is whatever the caller
      of the disassembler left in it. */
  lemma UnconditionalGotoTaken(m: Act, words: seq<Word>, k: Model, xs: seq<Inputs>, x: Inputs, start: nat, clear: bool)
    requires Inv(m) && |words| == 4096 && (forall y :: y in xs ==> ValidInputs(y)) && ValidInputs(x) && start < 4096
    requires xs != []
    requires RunKeepsToListing(m, words, k, xs, start, clear)
    ensures var s := After(m, words, k, xs);
            s.ctl.inst == Normal && s.ctl.pc != start && ShownUnconditional(s, words, start, clear)
            ==> s.ctl.pc < 4096
                && CycleOn(s, words[s.ctl.pc], k, x).ctl.pc == GotoTarget(s.ctl, Number(words[s.ctl.pc]))
  {
    var n := |xs| - 1;
    var p, s := After(m, words, k, xs[..n]), After(m, words, k, xs);
    hide KeepsToListing, CycleOn, Misled, InStep, ListedClear, ShownUnconditional, Inv, Number;
    RunInStep(m, words, k, xs[..n], start, clear);
    InStepNotMisled(p, s, words, start, clear);
    AfterNext(m, words, k, xs);
    TruthfulUnlessMisled(p, words, k, xs[n], start, clear);
    PcRange(s);
    hide After, RunKeepsToListing;
    if s.ctl.inst == Normal && s.ctl.pc != start && ShownUnconditional(s, words, start, clear) {
      ShownMeansClear(s, words, start, clear);
      ShownMeansGoto(s, words, start, clear);
      GotoTaken(s, words[s.ctl.pc], k, x);
    }
  }

  lemma ShownMeansGoto(m: Act, words: seq<Word>, start: nat, clear: bool)
    requires Inv(m) && |words| == 4096 && start < 4096 && ShownUnconditional(m, words, start, clear)
    ensures m.ctl.pc < 4096 && Number(words[m.ctl.pc]) % 4 == 3
  {
    hide Disassembled, ListedAt, Number;
  }

  /** A misled state followed by a goto: the listing shows the goto as unconditional, and when the operation
      sets the carry the interpreter goes on at the next word instead. */
  lemma MisledGoto(m: Act, words: seq<Word>, k: Model, x: Inputs, y: Inputs, start: nat, clear: bool)
    requires Inv(m) && ValidInputs(x) && ValidInputs(y) && |words| == 4096 && start < 4096
    requires Misled(m, words, start, clear) && x.carryOut && Landing(m.ctl) < 4096
    requires Number(words[Landing(m.ctl)]) % 4 == 3 && ListedAt(words, start, clear, Landing(m.ctl)).inst == Normal
    ensures m.ctl.pc < 4096 && Inv(CycleOn(m, words[m.ctl.pc], k, x))
    ensures var t := CycleOn(m, words[m.ctl.pc], k, x);
            && t.ctl.inst == Normal && t.ctl.pc == Landing(m.ctl) != start && ShownUnconditional(t, words, start, clear)
            && CycleOn(t, words[t.ctl.pc], k, y).ctl.pc == (t.ctl.pc + 1) % 4096
  {
    MisledMeans(m, words, start, clear);
    var t := CycleOn(m, words[m.ctl.pc], k, x);
    CycleKeepsInv(m, words[m.ctl.pc], k, x);
    hide Misled, CycleOn, ListedAt, LeavesCarryClear, LeavesCarry, Disassembled, Number, Landing, Inv;
    ArithLands(m, words[m.ctl.pc], k, x);
    CarryLeft(Number(words[m.ctl.pc]), m.fl.p, x.carryOut);
    var d := ListedAt(words, start, clear, t.ctl.pc);
    DisassembledFacts(d, Number(words[t.ctl.pc]));
    GotoNotTaken(t, words[t.ctl.pc], k, y);
  }

  /** The goto that a cycle leads to, if the listing shows it as unconditional, is taken. */
  ghost predicate TakenAsShown(m: Act, words: seq<Word>, k: Model, x: Inputs, y: Inputs, start: nat, clear: bool)
    requires Inv(m) && ValidInputs(x) && ValidInputs(y) && |words| == 4096 && start < 4096
  {
    PcRange(m);
    CycleKeepsInv(m, words[m.ctl.pc], k, x);
    var t := CycleOn(m, words[m.ctl.pc], k, x);
    PcRange(t);
    t.ctl.inst == Normal && t.ctl.pc != start && ShownUnconditional(t, words, start, clear)
    ==> CycleOn(t, words[t.ctl.pc], k, y).ctl.pc == GotoTarget(t.ctl, Number(words[t.ctl.pc]))
  }

  /** A goto, listed as the first word of an instruction, that goes somewhere else than to the next word. */
  ghost predicate LeavingGoto(words: seq<Word>, start: nat, clear: bool, a: nat)
    requires |words| == 4096 && start < 4096 && a < 4096
  {
    && Number(words[a]) % 4 == 3 && ListedAt(words, start, clear, a).inst == Normal
    && InPage((a + 1) % 4096, Number(words[a]) / 4) != (a + 1) % 4096
  }

  lemma ShownIsGoto(t: Act, words: seq<Word>, start: nat, clear: bool)
    requires Inv(t) && |words| == 4096 && start < 4096 && t.ctl.pc < 4096 && !t.ctl.delRomFlag
    ensures GotoTarget(t.ctl, Number(words[t.ctl.pc])) == InPage((t.ctl.pc + 1) % 4096, Number(words[t.ctl.pc]) / 4)
    ensures ShownUnconditional(t, words, start, clear)
            ==> Number(words[t.ctl.pc]) % 4 == 3 && ListedAt(words, start, clear, t.ctl.pc).inst == Normal
  {
    hide ListedAt, Disassembled, Number, InPage, Inv;
  }

  lemma TakenUnlessMisled(m: Act, words: seq<Word>, k: Model, x: Inputs, y: Inputs, start: nat, clear: bool)
    requires Inv(m) && ValidInputs(x) && ValidInputs(y) && |words| == 4096 && start < 4096 && Landing(m.ctl) < 4096
    requires !(Misled(m, words, start, clear) && LeavingGoto(words, start, clear, Landing(m.ctl)))
    ensures TakenAsShown(m, words, k, x, y, start, clear)
  {
    PcRange(m);
    CycleKeepsInv(m, words[m.ctl.pc], k, x);
    var t := CycleOn(m, words[m.ctl.pc], k, x);
    PcRange(t);
    hide Misled, CycleOn, ListedAt, LeavesCarryClear, LeavesCarry, ShownUnconditional, Number, Inv;
    hide Landing, GotoTarget, InPage;
    if t.ctl.inst == Normal && t.ctl.pc != start && ShownUnconditional(t, words, start, clear) {
      ShownMeansGoto(t, words, start, clear);
      if t.fl.carry {
        ShownMeansClear(t, words, start, clear);
        CarrySource(m, words[m.ctl.pc], k, x);
        ArithLands(m, words[m.ctl.pc], k, x);
        CarryLeft(Number(words[m.ctl.pc]), m.fl.p, x.carryOut);
        MisledMeans(m, words, start, clear);
        ShownIsGoto(t, words, start, clear);
        GotoNotTaken(t, words[t.ctl.pc], k, y);
      } else {
        GotoTaken(t, words[t.ctl.pc], k, y);
      }
    }
  }

  lemma TakenSays(m: Act, words: seq<Word>, k: Model, x: Inputs, y: Inputs, start: nat, clear: bool)
    requires Inv(m) && ValidInputs(x) && ValidInputs(y) && |words| == 4096 && start < 4096
    requires TakenAsShown(m, words, k, x, y, start, clear)
    ensures m.ctl.pc < 4096 && Inv(CycleOn(m, words[m.ctl.pc], k, x))
    ensures var t := CycleOn(m, words[m.ctl.pc], k, x);
            && t.ctl.pc < 4096
            && (t.ctl.inst == Normal && t.ctl.pc != start && ShownUnconditional(t, words, start, clear)
                ==> CycleOn(t, words[t.ctl.pc], k, y).ctl.pc == GotoTarget(t.ctl, Number(words[t.ctl.pc])))
  {
    PcRange(m);
    CycleKeepsInv(m, words[m.ctl.pc], k, x);
    PcRange(CycleOn(m, words[m.ctl.pc], k, x));
    hide Misled, CycleOn, ListedAt, LeavesCarryClear, LeavesCarry, ShownUnconditional, Number, Inv;
    hide Landing, GotoTarget, InPage;
  }

  lemma LeavesTheNext(words: seq<Word>, start: nat, clear: bool, a: nat)
    requires |words| == 4096 && start < 4096 && a < 4096
    requires LeavingGoto(words, start, clear, a)
    ensures InPage((a + 1) % 4096, Number(words[a]) / 4) != (a + 1) % 4096
  {
    hide ListedAt, Number, InPage;
  }

  lemma MisledIsNotTaken(m: Act, words: seq<Word>, k: Model, x: Inputs, y: Inputs, start: nat, clear: bool)
    requires Inv(m) && ValidInputs(x) && ValidInputs(y) && |words| == 4096 && start < 4096 && Landing(m.ctl) < 4096
    requires Misled(m, words, start, clear) && LeavingGoto(words, start, clear, Landing(m.ctl)) && x.carryOut
    ensures !TakenAsShown(m, words, k, x, y, start, clear)
  {
    MisledMeans(m, words, start, clear);
    hide *;
    MisledGoto(m, words, k, x, y, start, clear);
    LeavesTheNext(words, start, clear, Landing(m.ctl));
    var t := CycleOn(m, words[m.ctl.pc], k, x);
    ArithLands(m, words[m.ctl.pc], k, x);
    ShownIsGoto(t, words, start, clear);
    if TakenAsShown(m, words, k, x, y, start, clear) {
      TakenSays(m, words, k, x, y, start, clear);
    }
  }

  /** For every state, in step or not: whatever the inputs of this cycle and the next, a goto that the
      listing shows as unconditional is taken, unless the state is misled and such a goto comes next. */
  lemma GotoTakenIff(m: Act, words: seq<Word>, k: Model, start: nat, clear: bool)
    requires Inv(m) && |words| == 4096 && start < 4096
    ensures Landing(m.ctl) < 4096
    ensures (forall x, y | ValidInputs(x) && ValidInputs(y) :: TakenAsShown(m, words, k, x, y, start, clear))
            <==> !(Misled(m, words, start, clear) && LeavingGoto(words, start, clear, Landing(m.ctl)))
  {
    hide *;
    LandingRange(m);
    if Misled(m, words, start, clear) && LeavingGoto(words, start, clear, Landing(m.ctl)) {
      var x := Inputs(true, 0, false, 0, false, false, false, false);
      NoKeys(x);
      MisledIsNotTaken(m, words, k, x, x, start, clear);
    } else {
      forall x, y | ValidInputs(x) && ValidInputs(y) ensures TakenAsShown(m, words, k, x, y, start, clear) {
        TakenUnlessMisled(m, words, k, x, y, start, clear);
      }
    }
  }

  lemma SelectedLanding(c: Control)
    requires c.delRomFlag
    ensures Landing(c) == c.delRom * 256 + (c.pc + 1) % 4096 % 256
  {
  }

  /** Why a pending select must not carry an operation that sets the carry to another page. */
  lemma SelectedArithmeticEscapes(m: Act, words: seq<Word>, k: Model, x: Inputs, y: Inputs, start: nat, clear: bool)
    requires Inv(m) && ValidInputs(x) && ValidInputs(y) && |words| == 4096 && start < 4096 && m.ctl.pc < 4096
    requires m.ctl.inst == Normal && m.ctl.delRomFlag && LeavesCarry(Number(words[m.ctl.pc]), m.fl.p) && x.carryOut
    requires Landing(m.ctl) < 4096 && Landing(m.ctl) != start && Number(words[Landing(m.ctl)]) % 4 == 3
    requires ListedAt(words, start, clear, Landing(m.ctl)).inst == Normal
    requires ListedAt(words, start, clear, Landing(m.ctl)).clear
    ensures Inv(CycleOn(m, words[m.ctl.pc], k, x))
    ensures var t := CycleOn(m, words[m.ctl.pc], k, x);
            && t.ctl.inst == Normal && t.ctl.pc == m.ctl.delRom * 256 + (m.ctl.pc + 1) % 4096 % 256
            && ShownUnconditional(t, words, start, clear)
            && CycleOn(t, words[t.ctl.pc], k, y).ctl.pc == (t.ctl.pc + 1) % 4096
  {
    hide Misled, CycleOn, ListedAt, LeavesCarryClear, LeavesCarry, ShownUnconditional, Number, Inv, WordsFrom;
    MisledMeans(m, words, start, clear);
    MisledGoto(m, words, k, x, y, start, clear);
    SelectedLanding(m.ctl);
  }

  lemma FirstJump(words: seq<Word>, k: Model, x: Inputs)
    requires |words| == 4096 && ValidInputs(x) && Number(words[0]) == 11
    ensures Inv(PowerOn()) && PowerOn().ctl.pc == 0
    ensures var c := CycleOn(PowerOn(), words[0], k, x).ctl; c.pc == 2 && c.inst == Normal && !c.delRomFlag
  {
    hide *;
    var m, o := PowerOn(), 11;
    PowerOnState(k);
    NormalCycle(m, words[0], k, x);
    GotoControl(Begun(m, k).ctl, o, x);
    NotSelected(m.ctl, Begun(m, k).ctl.(pc := InPage(Begun(m, k).ctl.pc, o / 4)));
    FirstPage();
  }

  lemma PowerOnState(k: Model)
    ensures var m := PowerOn();
            && Inv(m) && m.ctl.pc == 0 && m.ctl.inst == Normal && !m.ctl.delRomFlag && !m.fl.carry && m.fl.p == 0
            && Begun(m, k).ctl.pc == 1
  {
  }

  lemma NotSelected(before: Control, c: Control)
    requires !before.delRomFlag
    ensures Selected(before, c) == c
  {
  }

  lemma FirstPage()
    ensures InPage(1, 2) == 2
  {
  }

  lemma SecondListed(words: seq<Word>, clear: bool)
    requires |words| == 4096 && Number(words[0]) == 11 && Number(words[1]) == 20 && Number(words[2]) == 578
    ensures ListedAt(words, 0, clear, 2).inst == ThenGoto && ListedAt(words, 0, clear, 3).inst == Normal
  {
    hide Disassembled, Number;
    var d0, d1, d2 := ListedAt(words, 0, clear, 0), ListedAt(words, 0, clear, 1), ListedAt(words, 0, clear, 2);
    assert d0.inst == Normal;
    hide ListedAt;
    ListedNext(words, 0, clear, 0);
    DisassembledInst(d0, 11);
    ListedNext(words, 0, clear, 1);
    DisassembledInst(d1, 20);
    ListedNext(words, 0, clear, 2);
    DisassembledInst(d2, 578);
  }

  lemma MisledAtTwo(t: Act, words: seq<Word>, clear: bool)
    requires Inv(t) && t.ctl.pc == 2 && t.ctl.inst == Normal && !t.ctl.delRomFlag
    requires |words| == 4096 && Number(words[2]) == 578 && ListedAt(words, 0, clear, 2).inst == ThenGoto
    ensures Landing(t.ctl) == 3 && Misled(t, words, 0, clear) && !LeavesCarryClear(Number(words[2]))
  {
    hide ListedAt, Number;
  }

  /** Why control must not enter a test at its second word. A program that jumps over its word 1, a test,
      to word 2, which decrements digit 0 of register a. That is zero after the reset, so there is a borrow, and
      the goto in word 3 is not taken, though the listing, for which word 2 belongs to the test, shows it as
      unconditional. */
  lemma OutOfStep(words: seq<Word>, k: Model, x: Inputs, clear: bool)
    requires |words| == 4096 && ValidInputs(x) && x.carryOut == DigitOps.ZeroBorrow(1, 10)
    requires Number(words[0]) == 11 && Number(words[1]) == 20 && Number(words[2]) == 578 && Number(words[3]) == 23
    ensures Inv(PowerOn())
    ensures var s := After(PowerOn(), words, k, [x, x]);
            && s.ctl.pc == 3 && s.ctl.inst == Normal && ShownUnconditional(s, words, 0, clear)
            && GotoTarget(s.ctl, 23) == 5 && CycleOn(s, words[3], k, x).ctl.pc == 4
  {
    hide *;
    var m := PowerOn();
    FirstJump(words, k, x);
    SecondListed(words, clear);
    TwoCycles(m, words, k, x);
    var t := CycleOn(m, words[0], k, x);
    MisledAtTwo(t, words, clear);
    DigitOps.ZeroBorrows(1, 10);
    MisledGoto(t, words, k, x, x, 0, clear);
    TargetFive(CycleOn(t, words[2], k, x), t, k, words[2], x);
  }

  lemma TwoCycles(m: Act, words: seq<Word>, k: Model, x: Inputs)
    requires Inv(m) && |words| == 4096 && ValidInputs(x) && m.ctl.pc < 4096
    ensures Inv(CycleOn(m, words[m.ctl.pc], k, x))
    ensures var t := CycleOn(m, words[m.ctl.pc], k, x);
            t.ctl.pc < 4096 && After(m, words, k, [x, x]) == CycleOn(t, words[t.ctl.pc], k, x)
  {
    hide CycleOn, Inv;
    AfterNext(m, words, k, [x]);
    AfterNext(m, words, k, [x, x]);
    assert [x, x][..1] == [x] && [x][..0] == [];
  }

  lemma TargetFive(s: Act, t: Act, k: Model, w: Word, x: Inputs)
    requires Inv(t) && ValidInputs(x) && t.ctl.inst == Normal && !LeavesCarryClear(Number(w))
    requires s == CycleOn(t, w, k, x)
    requires s.ctl.pc == 3
    ensures GotoTarget(s.ctl, 23) == 5
  {
    hide CycleOn, Number, LeavesCarryClear, Inv;
    ArithLands(t, w, k, x);
  }

  lemma FirstSelect(words: seq<Word>, k: Model, x: Inputs)
    requires |words| == 4096 && ValidInputs(x) && Number(words[0]) == 116
    ensures Inv(PowerOn()) && PowerOn().ctl.pc == 0
    ensures var c := CycleOn(PowerOn(), words[0], k, x).ctl;
            c.pc == 1 && c.inst == Normal && c.delRomFlag && c.delRom == 1 && Landing(c) == 258
  {
    hide *;
    PowerOnState(k);
    NormalCycle(PowerOn(), words[0], k, x);
    SelectOne(Begun(PowerOn(), k).ctl, PowerOn().ctl, x);
  }

  lemma SelectOne(c: Control, before: Control, x: Inputs)
    requires Proper(c.calls) && c.bank < 2 && c.pc == 1 && c.inst == Normal && !before.delRomFlag
    ensures var t := Selected(before, ControlOp(c, Decode(116), 116, false, x));
            t.pc == 1 && t.inst == Normal && t.delRomFlag && t.delRom == 1 && Landing(t) == 258
  {
    assert Decode(116) == DelSelRom;
    assert ControlOp(c, DelSelRom, 116, false, x) == c.(delRom := 1, delRomFlag := true);
    hide ControlOp, Decode;
  }

  lemma EmptyWordListed(words: seq<Word>, clear: bool)
    requires |words| == 4096 && Number(words[257]) == 0
    ensures var d := ListedAt(words, 257, clear, 258); d.inst == Normal && d.clear
  {
    hide Disassembled, Number;
    var d := ListedAt(words, 257, clear, 257);
    assert d.inst == Normal;
    hide ListedAt;
    ListedNext(words, 257, clear, 257);
    DisassembledInst(d, 0);
    DisassembledFacts(d, 0);
  }

  lemma TargetInPageOne(s: Act, t: Act, k: Model, w: Word, x: Inputs)
    requires Inv(t) && ValidInputs(x) && t.ctl.inst == Normal && !LeavesCarryClear(Number(w))
    requires s == CycleOn(t, w, k, x)
    requires s.ctl.pc == 258
    ensures GotoTarget(s.ctl, 23) == 261
  {
    hide CycleOn, Number, LeavesCarryClear, Inv;
    ArithLands(t, w, k, x);
  }

  lemma DecrementLeavesCarry(o: nat, p: nat)
    requires o == 578
    ensures LeavesCarry(o, p) && !LeavesCarryClear(o)
  {
  }

  /** From power on: word 0 selects ROM 1 with delay, word 1 decrements digit 0 of register a, which is zero, and
      goes on in word 258. The goto there is not taken, though a listing from word 257 on shows it as
      unconditional. */
  lemma SelectedEscapeRun(words: seq<Word>, k: Model, x: Inputs, clear: bool)
    requires |words| == 4096 && ValidInputs(x) && x.carryOut == DigitOps.ZeroBorrow(1, 10)
    requires Number(words[0]) == 116 && Number(words[1]) == 578 && Number(words[257]) == 0 && Number(words[258]) == 23
    ensures Inv(PowerOn())
    ensures var s := After(PowerOn(), words, k, [x, x]);
            && s.ctl.pc == 258 && s.ctl.inst == Normal && ShownUnconditional(s, words, 257, clear)
            && GotoTarget(s.ctl, 23) == 261 && CycleOn(s, words[258], k, x).ctl.pc == 259
  {
    hide *;
    var m := PowerOn();
    FirstSelect(words, k, x);
    EmptyWordListed(words, clear);
    TwoCycles(m, words, k, x);
    var t := CycleOn(m, words[0], k, x);
    DecrementLeavesCarry(578, t.fl.p);
    DigitOps.ZeroBorrows(1, 10);
    SelectedArithmeticEscapes(t, words, k, x, x, 257, clear);
    TargetInPageOne(CycleOn(t, words[1], k, x), t, k, words[1], x);
  }

  lemma GotoNotTaken(m: Act, w: Word, k: Model, x: Inputs)
    requires Inv(m) && ValidInputs(x) && m.ctl.inst == Normal && m.fl.carry && !m.ctl.delRomFlag && Number(w) % 4 == 3
    ensures CycleOn(m, w, k, x).ctl.pc == (m.ctl.pc + 1) % 4096
  {
    NormalCycle(m, w, k, x);
    hide CycleOn, Begun, Number, DecodeMisc;
  }

  // ---------- the ROM self-test ----------

  /** The state after some cycles of a ROM. */
  ghost function Run(m: Act, rom: Rom, k: Model, xs: seq<Inputs>): (t: Act)
    requires Inv(m) && ValidRom(rom) && forall x :: x in xs ==> ValidInputs(x)
    ensures Inv(t)
    decreases |xs|
  {
    if xs == [] then m
    else
      var t := Run(m, rom, k, xs[..|xs| - 1]);
      assert xs[|xs| - 1] in xs;
      CycleKeepsInv(t, Fetch(t, rom, k), k, xs[|xs| - 1]);
      Cycle(t, rom, k, xs[|xs| - 1])
  }

  /** The words a run fetches, in order. */
  ghost function Reads(m: Act, rom: Rom, k: Model, xs: seq<Inputs>): (r: seq<Bits>)
    requires Inv(m) && ValidRom(rom) && forall x :: x in xs ==> ValidInputs(x)
    ensures |r| == |xs|
    decreases |xs|
  {
    if xs == [] then []
    else
      var front := xs[..|xs| - 1];
      Reads(m, rom, k, front) + [Fetch(Run(m, rom, k, front), rom, k).bits]
  }

  /** The self-test starts at the beginning of the 1K bank that holds the next address, unless a delayed
      select was pending. */
  lemma SelftestStarts(m: Act, w: Word, k: Model, x: Inputs)
    requires Inv(m) && ValidInputs(x) && m.ctl.inst == Normal && !m.ctl.delRomFlag && Decode(Number(w)) == RomSelftest
    ensures var t := CycleOn(m, w, k, x);
            Inv(t) && Testing(t, (m.ctl.pc + 1) % 4096 / 1024 * 1024, 0) && t.crc == SEED && t.ctl.calls == m.ctl.calls
  {
    CycleKeepsInv(m, w, k, x);
    hide FlagsOp, Number, Polled, Decode;
  }

  /** A select that was pending moves the start of the self-test to the page it names. */
  lemma SelectedSelftest(m: Act, w: Word, k: Model, x: Inputs)
    requires Inv(m) && ValidInputs(x) && m.ctl.inst == Normal && m.ctl.delRomFlag && Decode(Number(w)) == RomSelftest
    ensures CycleOn(m, w, k, x).ctl.inst == Selftest && CycleOn(m, w, k, x).ctl.pc == m.ctl.delRom * 256
  {
    NormalCycle(m, w, k, x);
    BankStart((m.ctl.pc + 1) % 4096);
    hide CycleOn, Begun, Number, Decode;
  }

  lemma BankStart(pc: nat)
    ensures pc / 1024 * 1024 % 256 == 0
  {
  }

  /** n words into the self-test of the 1K bank at a base address. */
  predicate Testing(t: Act, base: nat, n: nat) {
    t.ctl.inst == Selftest && base % 1024 == 0 && base < 4096 && n < 1024 && t.ctl.pc == base + n
  }

  /** The self-test has returned to its caller. */
  predicate Returns(from: Control, to: Control)
    requires Proper(from.calls)
  {
    to.inst == Normal && (to.pc, to.calls) == Return(from.calls)
  }

  lemma TestedStatus(s: seq<bool>, crc: Bits, last: bool, x: Inputs, spice: bool)
    requires |s| == 16
    ensures var t := Polled(if last && crc != GOOD then s[5 := true] else s, x, spice);
            && (s[5] || (last && crc != GOOD) ==> t[5])
            && (spice && t[5] ==> s[5] || (last && crc != GOOD))
  {
    PolledS5(if last && crc != GOOD then s[5 := true] else s, x, spice);
    hide Polled;
  }

  lemma TestedParts(b: Act, w: Word)
    requires Proper(b.ctl.calls) && b.ctl.bank < 2 && |b.fl.s| == 16
    ensures var t, last := Tested(b, w), b.ctl.pc % 1024 == 0;
            && t.crc == Update(b.crc, w.bits)
            && t.fl.s == (if last && t.crc != GOOD then b.fl.s[5 := true] else b.fl.s)
            && (if last then t.ctl.inst == Normal && (t.ctl.pc, t.ctl.calls) == Return(b.ctl.calls)
                else t.ctl.pc == b.ctl.pc && t.ctl.inst == b.ctl.inst && t.ctl.calls == b.ctl.calls)
  {
    hide Update, Number;
  }

  lemma TestedCycle(m: Act, w: Word, k: Model, x: Inputs, base: nat, n: nat)
    requires Inv(m) && ValidInputs(x) && Testing(m, base, n)
    ensures var t := CycleOn(m, w, k, x);
            && t.crc == Update(m.crc, w.bits)
            && (if n < 1023 then Testing(t, base, n + 1) && t.ctl.calls == m.ctl.calls else Returns(m.ctl, t.ctl))
            && (m.fl.s[5] || (n == 1023 && t.crc != GOOD) ==> t.fl.s[5])
            && (k.spice && t.fl.s[5] ==> m.fl.s[5] || (n == 1023 && t.crc != GOOD))
  {
    hide CycleOn, Begun, Number, Update, Polled, Inv, Tested;
    SelftestCycle(m, w, k, x);
    NextInTest(base, n);
    FullStatus(m);
    var b := Begun(m, k);
    TestedParts(b, w);
    TestedStatus(m.fl.s, Update(m.crc, w.bits), n == 1023, x, k.spice);
  }

  lemma FullStatus(m: Act)
    requires Inv(m)
    ensures |m.fl.s| == 16
  {
  }

  lemma NextInTest(base: nat, n: nat)
    requires base % 1024 == 0 && base < 4096 && n < 1024
    ensures (base + n + 1) % 4096 % 1024 == 0 <==> n == 1023
    ensures n < 1023 ==> (base + n + 1) % 4096 == base + n + 1
  {
  }

  /** While it runs the self-test reads one word after the other, into the checksum. */
  lemma {:induction false} SelftestReads(m: Act, rom: Rom, k: Model, xs: seq<Inputs>, base: nat)
    requires Inv(m) && ValidRom(rom) && (forall x :: x in xs ==> ValidInputs(x)) && Testing(m, base, 0) && m.crc == SEED
    requires |xs| < 1024
    ensures var t := Run(m, rom, k, xs);
            && Testing(t, base, |xs|) && t.ctl.calls == m.ctl.calls && t.crc == Fold(SEED, Reads(m, rom, k, xs))
            && (m.fl.s[5] ==> t.fl.s[5]) && (k.spice && t.fl.s[5] ==> m.fl.s[5])
    decreases |xs|
  {
    if xs != [] {
      var n := |xs| - 1;
      var front, x := xs[..n], xs[n];
      assert x in xs;
      SelftestReads(m, rom, k, front, base);
      var p := Run(m, rom, k, front);
      TestedCycle(p, Fetch(p, rom, k), k, x, base, n);
      FoldNext(SEED, Reads(m, rom, k, front), Fetch(p, rom, k).bits);
      hide CycleOn, Fold, Fetch, Update;
    }
  }

  /** After its 1024 words the self-test returns, with the checksum of exactly those words; status bit 5
      is then set when the checksum is wrong, and in the Spice series, where nothing else sets it, only then. */
  lemma SelftestEnds(m: Act, rom: Rom, k: Model, xs: seq<Inputs>, base: nat)
    requires Inv(m) && ValidRom(rom) && (forall x :: x in xs ==> ValidInputs(x)) && Testing(m, base, 0) && m.crc == SEED
    requires |xs| == 1024
    ensures var t := Run(m, rom, k, xs);
            && Returns(m.ctl, t.ctl) && t.crc == Fold(SEED, Reads(m, rom, k, xs))
            && (t.crc != GOOD ==> t.fl.s[5]) && (k.spice && t.fl.s[5] ==> m.fl.s[5] || t.crc != GOOD)
  {
    var front, x := xs[..1023], xs[1023];
    assert x in xs;
    SelftestReads(m, rom, k, front, base);
    var p := Run(m, rom, k, front);
    TestedCycle(p, Fetch(p, rom, k), k, x, base, 1023);
    FoldNext(SEED, Reads(m, rom, k, front), Fetch(p, rom, k).bits);
    hide CycleOn, Fold, Fetch, Update;
  }

  /** How many more cycles the instruction under way takes. */
  function CyclesLeft(c: Control): nat {
    match c.inst case Normal => 0 case ThenGoto => 1 case Selftest => 1024 - c.pc % 1024
  }

  /** Every instruction ends: a cycle inside one leaves one cycle less, and none starts with more than the
      whole self-test ahead of it. */
  lemma InstructionsEnd(m: Act, w: Word, k: Model, x: Inputs)
    requires Inv(m) && ValidInputs(x)
    ensures var left := CyclesLeft(CycleOn(m, w, k, x).ctl);
            if m.ctl.inst == Normal then left <= 1024 else left == CyclesLeft(m.ctl) - 1
  {
    if m.ctl.inst == Selftest {
      var base, n := m.ctl.pc / 1024 * 1024, m.ctl.pc % 1024;
      WithinBank(m.ctl.pc);
      TestedCycle(m, w, k, x, base, n);
      hide CycleOn, Inv;
      if n < 1023 {
        SameBank(base, n + 1);
      }
    } else {
      hide ControlOp, FlagsOp, Decode, Number, Polled;
    }
  }

  lemma WithinBank(pc: nat)
    requires pc < 4096
    ensures var base, n := pc / 1024 * 1024, pc % 1024; base % 1024 == 0 && base < 4096 && n < 1024 && pc == base + n
  {
  }

  lemma SameBank(base: nat, n: nat)
    requires base % 1024 == 0 && n < 1024
    ensures (base + n) % 1024 == n
  {
  }

  // ---------- what the self-test detects ----------

  /** The words of a 1K bank. */
  function BankWords(rom: Rom, base: nat, n: nat): (r: seq<Bits>)
    requires ValidRom(rom) && base + n <= 4096
    ensures |r| == n
  {
    seq(n, i requires 0 <= i < n => rom.words[0][base + i].bits)
  }

  lemma FetchBankZero(m: Act, rom: Rom, k: Model)
    requires Inv(m) && ValidRom(rom) && rom.banks[m.ctl.pc / 1024] == {0}
    ensures Fetch(m, rom, k) == rom.words[0][m.ctl.pc]
  {
  }

  /** On a page that exists only in bank 0 the self-test reads that page, each word once and in order,
      whatever bank is selected meanwhile. */
  lemma {:induction false} ReadsTheBank(m: Act, rom: Rom, k: Model, xs: seq<Inputs>, base: nat)
    requires Inv(m) && ValidRom(rom) && (forall x :: x in xs ==> ValidInputs(x)) && Testing(m, base, 0) && m.crc == SEED
    requires |xs| <= 1024 && rom.banks[base / 1024] == {0}
    ensures Reads(m, rom, k, xs) == BankWords(rom, base, |xs|)
    decreases |xs|
  {
    if xs != [] {
      hide *;
      ReadsTheBank(m, rom, k, xs[..|xs| - 1], base);
      ReadsOneMore(m, rom, k, xs, base);
    }
  }

  lemma ReadsOneMore(m: Act, rom: Rom, k: Model, xs: seq<Inputs>, base: nat)
    requires Inv(m) && ValidRom(rom) && (forall x :: x in xs ==> ValidInputs(x)) && Testing(m, base, 0) && m.crc == SEED
    requires 1 <= |xs| <= 1024 && rom.banks[base / 1024] == {0}
    requires Reads(m, rom, k, xs[..|xs| - 1]) == BankWords(rom, base, |xs| - 1)
    ensures Reads(m, rom, k, xs) == BankWords(rom, base, |xs|)
  {
    var front := xs[..|xs| - 1];
    hide Cycle, CycleOn, Fetch, Run, Inv, Fold;
    SelftestReads(m, rom, k, front, base);
    hide *;
    ReadsNext(m, rom, k, xs);
    ReadHere(Run(m, rom, k, front), rom, k, base, |xs| - 1);
    BankWordsNext(rom, base, |xs| - 1);
  }

  lemma ReadHere(p: Act, rom: Rom, k: Model, base: nat, n: nat)
    requires Inv(p) && ValidRom(rom) && Testing(p, base, n) && rom.banks[base / 1024] == {0}
    ensures base + n < 4096 && Fetch(p, rom, k).bits == rom.words[0][base + n].bits
  {
    SamePage(base, n);
    FetchBankZero(p, rom, k);
    hide Fetch;
  }

  lemma BankWordsNext(rom: Rom, base: nat, n: nat)
    requires ValidRom(rom) && base + n < 4096
    ensures BankWords(rom, base, n + 1) == BankWords(rom, base, n) + [rom.words[0][base + n].bits]
  {
  }

  lemma ReadsNext(m: Act, rom: Rom, k: Model, xs: seq<Inputs>)
    requires Inv(m) && ValidRom(rom) && (forall x :: x in xs ==> ValidInputs(x)) && xs != []
    ensures var front := xs[..|xs| - 1];
            Reads(m, rom, k, xs) == Reads(m, rom, k, front) + [Fetch(Run(m, rom, k, front), rom, k).bits]
  {
    hide Fetch, Run;
  }

  lemma SamePage(base: nat, n: nat)
    requires base % 1024 == 0 && n < 1024
    ensures (base + n) / 1024 == base / 1024
  {
  }

  /** If the self-test accepts a bank then it rejects, by setting status bit 5, every bank that differs
      from it in exactly one word. */
  lemma OneBadWordSetsS5(m: Act, rom: Rom, bad: Rom, k: Model, xs: seq<Inputs>, base: nat, a: nat)
    requires Inv(m) && ValidRom(rom) && ValidRom(bad) && (forall x :: x in xs ==> ValidInputs(x)) && |xs| == 1024
    requires Testing(m, base, 0) && m.crc == SEED && rom.banks[base / 1024] == {0} && bad.banks[base / 1024] == {0}
    requires base <= a < base + 1024 && bad.words[0][a] != rom.words[0][a]
    requires forall i :: base <= i < base + 1024 && i != a ==> bad.words[0][i] == rom.words[0][i]
    requires Run(m, rom, k, xs).crc == GOOD
    ensures Run(m, bad, k, xs).fl.s[5]
  {
    hide Run, Cycle, CycleOn, Fold, Reads, Inv;
    ReadsTheBank(m, rom, k, xs, base);
    ReadsTheBank(m, bad, k, xs, base);
    SelftestEnds(m, rom, k, xs, base);
    SelftestEnds(m, bad, k, xs, base);
    var good, other := BankWords(rom, base, 1024), bad.words[0][a].bits;
    assert BankWords(bad, base, 1024) == good[a - base := other];
    OneWordDetected(SEED, good, a - base, other);
  }
}
