/** Calls, selects and keys of the Classic processor over runs: where a return goes, what a delayed select does to
    the branch behind it, and what a reset leaves. */
module ClassicCalls {
  import opened DigitOps
  import opened ClassicSpec
  import opened ClassicAsm

  // ---------- words ----------

  function JsbWord(target: nat): (o: Word)
    requires target < 256
  {
    4 * target + 1
  }

  const RETURN: Word := 0x030

  function SelectRom(rom: nat): (o: Word)
    requires rom < 8
  {
    128 * rom + 0x010
  }

  function DelayedRom(rom: nat): (o: Word)
    requires rom < 8
  {
    128 * rom + 0x074
  }

  function DelayedGroup(group: nat): (o: Word)
    requires group < 2
  {
    128 * group + 0x234
  }

  const KEYS_TO_ROM: Word := 0x0d0

  lemma BranchWords(target: nat, rom: nat, group: nat)
    requires target < 256 && rom < 8 && group < 2
    ensures Decode(JsbWord(target)) == Jsb && JsbWord(target) / 4 == target && Decode(RETURN) == Return
    ensures Decode(GotoWord(target)) == Goto && GotoWord(target) / 4 == target
    ensures Decode(SelectRom(rom)) == SelRom && SelectRom(rom) / 128 == rom
    ensures Decode(DelayedRom(rom)) == DelSelRom && DelayedRom(rom) / 128 == rom
    ensures Decode(DelayedGroup(group)) == DelSelGrp && DelayedGroup(group) / 128 % 2 == group
    ensures Decode(KEYS_TO_ROM) == KeysToRom
  {
  }

  /** A branch or select changes nothing but the address, and clears the carry. */
  lemma BranchStep(m: Machine, o: Word, twoDigit: bool)
    requires |m.s| == SSIZE && |m.ext| == 2 && Branches(Decode(o))
    ensures var here := m.at.(delGroupFlag := false, delRomFlag := false, pc := (m.at.pc + 1) % 256);
            var t := Step(m, o, twoDigit);
            && t.at == Selected(m.at, Branch(here, Decode(o), o, m.acc.carry, m.keyBuf))
            && t.acc == m.acc.(carry := false)
  {
    hide Decode, Branch, Polled, Branches, Transfers;
    NotBoth(Decode(o));
  }

  lemma NotBoth(op: Op)
    requires Branches(op)
    ensures !Transfers(op)
  {
  }

  // ---------- calls ----------

  /** The address that a call in this state leaves behind. */
  function Behind(m: Machine): nat {
    (m.at.pc + 1) % 256
  }

  /** The addresses behind the calls that a run makes, in order. */
  function CallsMade(m: Machine, events: seq<Event>, ucode: seq<Word>, twoDigit: bool): seq<nat>
    decreases |events|
  {
    if events == [] || !InRange(m) || FetchAddress(m.at) >= |ucode| || !Sensible(events[0]) then []
    else
      (if events[0] == Instruction && Decode(ucode[FetchAddress(m.at)]) == Jsb then [Behind(m)] else [])
      + CallsMade(React(m, events[0], ucode, twoDigit), events[1..], ucode, twoDigit)
  }

  function LastOf(calls: seq<nat>, before: nat): nat {
    if calls == [] then before else calls[|calls| - 1]
  }

  lemma {:induction false} LastOfTwo(a: seq<nat>, b: seq<nat>, before: nat)
    ensures LastOf(a + b, before) == LastOf(b, LastOf(a, before))
  {
  }

  lemma StepReturnAddress(m: Machine, o: Word, twoDigit: bool)
    requires |m.s| == SSIZE && |m.ext| == 2
    ensures Step(m, o, twoDigit).at.retPc == if Decode(o) == Jsb then Behind(m) else m.at.retPc
  {
    hide Decode, Polled;
    var op := Decode(o);
    if Transfers(op) {
      hide Transfer;
    } else if Branches(op) {
      BranchStep(m, o, twoDigit);
    } else {
      ControlFrame(Prepared(m), op, o);
      hide PanelOp;
    }
  }

  lemma ReactReturnAddress(m: Machine, e: Event, ucode: seq<Word>, twoDigit: bool)
    requires InRange(m) && FetchAddress(m.at) < |ucode| && Sensible(e)
    ensures React(m, e, ucode, twoDigit).at.retPc
            == if e == Instruction && Decode(ucode[FetchAddress(m.at)]) == Jsb then Behind(m) else m.at.retPc
  {
    hide Step, Decode, FetchAddress;
    if e == Instruction {
      StepReturnAddress(m, ucode[FetchAddress(m.at)], twoDigit);
    }
  }

  /** The return address after a run is the one behind the last call made in it, whatever keys, flags and
      resets came between; without a call it is the old one. */
  lemma {:induction false} ReturnAddress(m: Machine, events: seq<Event>, ucode: seq<Word>, twoDigit: bool)
    requires Run(m, events, ucode, twoDigit).Some?
    ensures Run(m, events, ucode, twoDigit).value.at.retPc
            == LastOf(CallsMade(m, events, ucode, twoDigit), m.at.retPc)
    decreases |events|
  {
    hide React, Decode, FetchAddress;
    if events != [] {
      var t := React(m, events[0], ucode, twoDigit);
      ReactReturnAddress(m, events[0], ucode, twoDigit);
      ReturnAddress(t, events[1..], ucode, twoDigit);
      var first := if events[0] == Instruction && Decode(ucode[FetchAddress(m.at)]) == Jsb then [Behind(m)] else [];
      LastOfTwo(first, CallsMade(t, events[1..], ucode, twoDigit), m.at.retPc);
    }
  }

  /** A call goes to its target, and a return goes on behind the last call made: the one it belongs to exactly
      if no other call was made in between. The ROM is the one selected then, not the caller's. */
  lemma CallReturns(m: Machine, target: nat, events: seq<Event>, ucode: seq<Word>, twoDigit: bool)
    requires Inv(m) && target < 256 && |ucode| == 4096 && forall e :: e in events ==> Sensible(e)
    ensures var called := Step(m, JsbWord(target), twoDigit);
            && called.at.pc == target && Inv(called)
            && var r := Run(called, events, ucode, twoDigit);
            && r.Some? && Inv(r.value)
            && var calls := CallsMade(called, events, ucode, twoDigit);
            var back := Step(r.value, RETURN, twoDigit);
            && back.at.pc == LastOf(calls, Behind(m)) && (calls == [] ==> back.at.pc == (m.at.pc + 1) % 256)
            && back.at.rom == (if r.value.at.delRomFlag then r.value.at.delRom else r.value.at.rom)
            && back.at.group == (if r.value.at.delGroupFlag then r.value.at.delGroup else r.value.at.group)
  {
    hide Step, Run, Inv, CallsMade, Branch, Decode, JsbWord, AddressInRange;
    Sizes(m);
    BranchWords(target, 0, 0);
    BranchStep(m, JsbWord(target), twoDigit);
    JsbBranch(m, target);
    StepKeepsInv(m, JsbWord(target), twoDigit);
    var called := Step(m, JsbWord(target), twoDigit);
    RunKeepsInv(called, events, ucode, twoDigit);
    ReturnAddress(called, events, ucode, twoDigit);
    var t := Run(called, events, ucode, twoDigit).value;
    Sizes(t);
    BranchStep(t, RETURN, twoDigit);
    ReturnBranch(t);
  }

  lemma JsbBranch(m: Machine, target: nat)
    requires target < 256
    ensures forall at: Addressing, carry: bool ::
              Branch(at, Jsb, JsbWord(target), carry, m.keyBuf) == at.(retPc := at.pc, pc := target)
  {
  }

  lemma ReturnBranch(m: Machine)
    ensures forall at: Addressing, carry: bool :: Branch(at, Return, RETURN, carry, m.keyBuf) == at.(pc := at.retPc)
  {
  }

  // ---------- selects ----------

  /** Where the word behind this one is fetched in another ROM and group. */
  function Address(group: nat, rom: nat, pc: nat): nat {
    group * 2048 + rom * 256 + pc
  }

  /** A select goes on in the other ROM, at the address behind its own. */
  lemma SelectGoesOn(m: Machine, rom: nat, twoDigit: bool)
    requires Inv(m) && rom < 8 && !m.at.delRomFlag && !m.at.delGroupFlag
    ensures FetchAddress(Step(m, SelectRom(rom), twoDigit).at) == Address(m.at.group, rom, (m.at.pc + 1) % 256)
  {
    hide Step, Decode, Inv, AddressInRange, SelectRom;
    Sizes(m);
    BranchWords(0, rom, 0);
    BranchStep(m, SelectRom(rom), twoDigit);
  }

  datatype Delayed = OtherRom(rom: nat) | OtherGroup(group: nat)

  predicate Exists(d: Delayed) {
    match d case OtherRom(rom) => rom < 8 case OtherGroup(group) => group < 2
  }

  function DelayedWord(d: Delayed): Word
    requires Exists(d)
  {
    match d case OtherRom(rom) => DelayedRom(rom) case OtherGroup(group) => DelayedGroup(group)
  }

  function BranchWord(target: nat, jsb: bool): Word
    requires target < 256
  {
    if jsb then JsbWord(target) else GotoWord(target)
  }

  lemma SelectStep(m: Machine, d: Delayed, twoDigit: bool)
    requires Inv(m) && Exists(d) && !m.at.delRomFlag && !m.at.delGroupFlag
    ensures var t := Step(m, DelayedWord(d), twoDigit);
            && Inv(t) && !t.acc.carry && t.at.pc == (m.at.pc + 1) % 256
            && t.at.rom == m.at.rom && t.at.group == m.at.group
            && (t.at.delRomFlag <==> d.OtherRom?) && (t.at.delGroupFlag <==> d.OtherGroup?)
            && (if d.OtherRom? then t.at.delRom == d.rom else t.at.delGroup == d.group)
  {
    hide Step, Decode, Inv, AddressInRange;
    Sizes(m);
    if d.OtherRom? {
      BranchWords(0, d.rom, 0);
    } else {
      BranchWords(0, 0, d.group);
    }
    StepKeepsInv(m, DelayedWord(d), twoDigit);
    BranchStep(m, DelayedWord(d), twoDigit);
  }

  lemma TargetStep(t: Machine, target: nat, jsb: bool, twoDigit: bool)
    requires Inv(t) && target < 256 && !t.acc.carry
    ensures var u := Step(t, BranchWord(target, jsb), twoDigit).at;
            && u.pc == target && u.rom == (if t.at.delRomFlag then t.at.delRom else t.at.rom)
            && u.group == (if t.at.delGroupFlag then t.at.delGroup else t.at.group)
            && u.retPc == if jsb then (t.at.pc + 1) % 256 else t.at.retPc
  {
    hide Step, Decode, Inv, AddressInRange;
    Sizes(t);
    BranchWords(target, 0, 0);
    BranchStep(t, BranchWord(target, jsb), twoDigit);
  }

  /** A delayed select sends the goto or jsb behind it to its target in the other ROM or group, and has a call
      come back behind the jsb. */
  lemma DelayedBranch(m: Machine, d: Delayed, target: nat, jsb: bool, twoDigit: bool)
    requires Inv(m) && Exists(d) && target < 256 && !m.at.delRomFlag && !m.at.delGroupFlag
    ensures var t := Step(m, DelayedWord(d), twoDigit);
            && Inv(t)
            && var u := Step(t, BranchWord(target, jsb), twoDigit).at;
            && FetchAddress(u) == (match d
                                   case OtherRom(rom) => Address(m.at.group, rom, target)
                                   case OtherGroup(group) => Address(group, m.at.rom, target))
            && u.retPc == if jsb then (m.at.pc + 2) % 256 else m.at.retPc
  {
    hide Step, Inv, BranchWord, DelayedWord, AddressInRange;
    Sizes(m);
    SelectStep(m, d, twoDigit);
    SelectKeepsReturn(m, d, twoDigit);
    Sizes(Step(m, DelayedWord(d), twoDigit));
    TargetStep(Step(m, DelayedWord(d), twoDigit), target, jsb, twoDigit);
    Onward(m.at.pc, 1);
  }

  lemma SelectKeepsReturn(m: Machine, d: Delayed, twoDigit: bool)
    requires Inv(m) && Exists(d)
    ensures Step(m, DelayedWord(d), twoDigit).at.retPc == m.at.retPc
  {
    hide Step, Decode, Inv;
    Sizes(m);
    if d.OtherRom? {
      BranchWords(0, d.rom, 0);
    } else {
      BranchWords(0, 0, d.group);
    }
    StepReturnAddress(m, DelayedWord(d), twoDigit);
  }

  /** A key pressed takes a program that waits for it to its own address. */
  lemma KeyBranch(m: Machine, code: nat, ucode: seq<Word>, twoDigit: bool)
    requires Inv(m) && code < 256 && |ucode| == 4096
    ensures FetchAddress(m.at) < 4096
    ensures var t := React(m, Key(code, true), ucode, twoDigit);
            Inv(t) && t.keyFlag && Step(t, KEYS_TO_ROM, twoDigit).at.pc == code
            && !React(t, Key(code, false), ucode, twoDigit).keyFlag
  {
    EventKeepsInv(m, Key(code, true), ucode, twoDigit);
    var t := React(m, Key(code, true), ucode, twoDigit);
    Sizes(t);
    BranchWords(0, 0, 0);
    BranchStep(t, KEYS_TO_ROM, twoDigit);
    hide Step, Decode, Decimal, FetchAddress;
  }

  // ---------- reset ----------

  /** A reset brings everything to its state at power on, except carry, return address, key code, external
      flags, RAM and its address; clearing memory brings RAM to it, and nothing else. */
  lemma ResetIsPowerOn(m: Machine)
    ensures ResetMachine(m)
            == PowerOn(|m.ram|).(acc := Accumulators(ZERO, ZERO, ZERO, m.acc.carry), prevCarry := m.prevCarry,
                   at := Addressing(0, 0, 0, m.at.retPc, false, 0, false, 0), keyBuf := m.keyBuf, ext := m.ext,
                   ramAddr := m.ramAddr, ram := m.ram)
  {
    assert NoStatus() == NoStatus();
  }

  lemma ClearedMemory(m: Machine, ucode: seq<Word>, twoDigit: bool)
    requires Inv(m) && |ucode| == 4096
    ensures FetchAddress(m.at) < 4096
    ensures React(m, ClearMemory, ucode, twoDigit) == m.(ram := PowerOn(|m.ram|).ram)
    ensures FetchAddress(React(m, Reset, ucode, twoDigit).at) == 0
  {
    FetchBelow4096(m.at);
    hide Decimal;
  }
}
