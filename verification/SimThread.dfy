/** The command and reply protocol between the user interface thread and the simulator thread of
    src/proc.c, as interleaved steps over two queues, and the loop body of the simulator thread. */
module SimThread {

  datatype Option<+T> = None | Some(value: T)

  datatype Command = Quit | SetIoPause | GetIoPause | SetRun | GetRun | SetCycles | GetCycles
                   | SingleCycle | SingleInst | SetBreakpoint
                   | Event(reset: bool)     // a chip event; a reset of the processor clears the cycle count
                   | Delegated(code: nat)   // register, memory, chip, debug flag and display commands
                   | Unknown

  datatype Reply = Unset | Ok | Unimplemented | BadCmd | RangeError

  /** A message block: `id` stands for its address, which is all send_cmd_to_sim_thread compares. */
  datatype Message = Message(id: nat, cmd: Command, b: bool, cycles: nat, reply: Reply)

  datatype Flags = Flags(quit: bool, ioPause: bool, run: bool, singleCycle: bool, singleInst: bool, cycles: nat)

  const MAX_INST_BURST: nat := 5000

  /** Only then may the thread wait with a timeout, and so come to execute anything. */
  predicate Enabled(f: Flags) {
    f.run && !f.ioPause
  }

  /** What handle_sim_cmd does to the flags and to the message. The delegated commands fill in the
      message in ways that depend on the rest of the simulator: `filled`. */
  function Handled(f: Flags, m: Message, filled: Message): (Flags, Message) {
    match m.cmd
    case Quit => (f.(quit := true), m.(reply := Ok))
    case SetIoPause => (f.(ioPause := m.b), m.(reply := Ok))
    case GetIoPause => (f, m.(b := f.ioPause, reply := Ok))
    case SetRun => (f.(run := m.b), m.(reply := Ok))
    case GetRun => (f, m.(b := f.run, reply := Ok))
    case SetCycles => (f.(cycles := m.cycles), m.(reply := Ok))
    case GetCycles => (f, m.(cycles := f.cycles, reply := Ok))
    case SingleCycle => (f.(singleCycle := true), m.(reply := Ok))
    case SingleInst => (f.(singleInst := true), m.(reply := Ok))
    case SetBreakpoint => (f, m.(reply := Unimplemented))
    case Event(reset) => (if reset then f.(cycles := 0) else f, m.(reply := Ok))
    case Delegated(_) => (f, filled.(id := m.id, cmd := m.cmd))
    case Unknown => (f, m.(reply := BadCmd))
  }

  // ---------- the two threads ----------

  datatype Gui = Ready | Waiting(sent: Message)

  /** Where the simulator thread is in its loop. */
  datatype Phase = Top | TimedPop | BlockedPop | Handling(m: Message) | Replying(m: Message)
                 | Expired | Bursting(left: nat) | Exited

  datatype Exchange = Exchange(sent: Message, received: Message)

  /** `handled` lists the messages in the order they were handled, `done` the completed exchanges;
      `executed` counts the cycles and instructions run, `cyclesRun` the cycles among them. The last four only
      record history. */
  datatype State = State(gui: Gui, cmdQ: seq<Message>, replyQ: seq<Message>, phase: Phase, flags: Flags,
                         handled: seq<Message>, done: seq<Exchange>, executed: nat, cyclesRun: nat)

  datatype Action = Push(m: Message) | PopReply                    // the user interface thread
                  | Decide | TakeCommand | TimeOut                 // the simulator thread
                  | Process(filled: Message) | SendReply
                  | Execute(burst: nat, elapsed: nat) | Instruction(more: bool, elapsed: nat)

  predicate ByGui(a: Action) {
    a.Push? || a.PopReply?
  }

  const INITIAL: State :=
    State(Ready, [], [], Top, Flags(false, false, false, false, false, 0), [], [], 0, 0)

  /** One step of either thread; None when it cannot be taken. */
  function Next(s: State, a: Action): Option<State> {
    match a
    case Push(m) =>
      if s.gui != Ready then None else Some(s.(gui := Waiting(m), cmdQ := s.cmdQ + [m]))
    case PopReply =>
      if s.gui == Ready || s.replyQ == [] then None
      else Some(s.(gui := Ready, replyQ := s.replyQ[1..], done := s.done + [Exchange(s.gui.sent, s.replyQ[0])]))
    case Decide =>
      if s.phase != Top then None
      else Some(s.(phase := if s.flags.quit then Exited else if Enabled(s.flags) then TimedPop else BlockedPop))
    case TakeCommand =>
      if (s.phase != TimedPop && s.phase != BlockedPop) || s.cmdQ == [] then None
      else Some(s.(phase := Handling(s.cmdQ[0]), cmdQ := s.cmdQ[1..]))
    case TimeOut =>
      if s.phase != TimedPop || s.cmdQ != [] then None else Some(s.(phase := Expired))
    case Process(filled) =>
      if !s.phase.Handling? then None
      else
        var (f, m) := Handled(s.flags, s.phase.m, filled);
        Some(s.(phase := Replying(m), flags := f, handled := s.handled + [s.phase.m]))
    case SendReply =>
      if !s.phase.Replying? then None else Some(s.(phase := Top, replyQ := s.replyQ + [s.phase.m]))
    case Execute(burst, elapsed) =>
      if s.phase != Expired || burst > MAX_INST_BURST then None else Some(Executed(s, burst, elapsed))
    case Instruction(more, elapsed) =>
      if !s.phase.Bursting? then None
      else if s.phase.left == 0 then Some(s.(phase := Top))
      else Some(Ran(s, elapsed).(phase := if more then Bursting(s.phase.left - 1) else Top))
  }

  /** One cycle or one instruction, which takes `elapsed` cycles. */
  function Ran(s: State, elapsed: nat): State {
    s.(executed := s.executed + 1, flags := s.flags.(cycles := s.flags.cycles + elapsed))
  }

  /** The part of the loop body behind the queue, reached without a message. */
  function Executed(s: State, burst: nat, elapsed: nat): State {
    if s.flags.ioPause then s.(phase := Top)
    else if s.flags.singleCycle then
      var t := Ran(s, elapsed);
      t.(phase := Top, cyclesRun := s.cyclesRun + 1, flags := t.flags.(singleCycle := false))
    else if s.flags.singleInst then var t := Ran(s, elapsed); t.(phase := Top, flags := t.flags.(singleInst := false))
    else if s.flags.run then s.(phase := Bursting(burst))
    else s.(phase := Top)
  }

  function Run(s: State, actions: seq<Action>): Option<State>
    decreases |actions|
  {
    if actions == [] then Some(s)
    else
      var t := Next(s, actions[0]);
      if t.None? then None else Run(t.value, actions[1..])
  }

  // ---------- what every interleaving keeps ----------

  function InHand(p: Phase): seq<Message> {
    if p.Handling? || p.Replying? then [p.m] else []
  }

  function Sent(done: seq<Exchange>): (r: seq<Message>)
    ensures |r| == |done|
  {
    seq(|done|, i requires 0 <= i < |done| => done[i].sent)
  }

  predicate Answers(received: Message, sent: Message) {
    received.id == sent.id && received.cmd == sent.cmd
  }

  /** The one message on its way, if the user interface waits for it. */
  ghost predicate OneMessage(s: State) {
    |s.cmdQ| + |InHand(s.phase)| + |s.replyQ| == (if s.gui == Ready then 0 else 1)
  }

  /** What has become of the message waited for. */
  ghost predicate Delivered(s: State) {
    s.gui != Ready ==>
      && (s.cmdQ != [] ==> s.cmdQ[0] == s.gui.sent)
      && (s.phase.Handling? ==> s.phase.m == s.gui.sent)
      && (s.phase.Replying? ==> Answers(s.phase.m, s.gui.sent))
      && (s.replyQ != [] ==> Answers(s.replyQ[0], s.gui.sent))
  }

  /** Commands are handled in the order they were sent, each once, none unanswered but the last. */
  ghost predicate InOrder(s: State) {
    var answered := s.replyQ != [] || s.phase.Replying?;
    s.handled == Sent(s.done) + if answered && s.gui != Ready then [s.gui.sent] else []
  }

  /** Every completed exchange brought back the message that was sent. */
  ghost predicate Matched(s: State) {
    forall i :: 0 <= i < |s.done| ==> Answers(s.done[i].received, s.done[i].sent)
  }

  /** The thread is past a timed pop only while it may execute. */
  ghost predicate Guarded(s: State) {
    && (s.phase.TimedPop? || s.phase.Expired? || s.phase.Bursting? ==> Enabled(s.flags))
    && (s.phase.Bursting? ==> s.phase.left <= MAX_INST_BURST)
  }

  /** The flags are what the commands handled so far make them. */
  ghost predicate Commanded(s: State) {
    s.flags.run == LastSet(s.handled, SetRun) && s.flags.ioPause == LastSet(s.handled, SetIoPause)
  }

  ghost predicate Inv(s: State) {
    OneMessage(s) && Delivered(s) && InOrder(s) && Matched(s) && Guarded(s) && Commanded(s)
  }

  /** The value of a flag after these commands: false at first, then as last set by `setter`. */
  function LastSet(handled: seq<Message>, setter: Command): bool {
    if handled == [] then false
    else
      var last := handled[|handled| - 1];
      if last.cmd == setter then last.b else LastSet(handled[..|handled| - 1], setter)
  }

  lemma LastSetStep(handled: seq<Message>, m: Message, setter: Command)
    ensures LastSet(handled + [m], setter) == if m.cmd == setter then m.b else LastSet(handled, setter)
  {
    assert (handled + [m])[..|handled|] == handled;
  }

  lemma SentStep(done: seq<Exchange>, e: Exchange)
    ensures Sent(done + [e]) == Sent(done) + [e.sent]
  {
  }

  lemma StepKeepsDelivery(s: State, a: Action)
    requires OneMessage(s) && Delivered(s) && Matched(s) && Next(s, a).Some?
    ensures var t := Next(s, a).value; OneMessage(t) && Delivered(t) && Matched(t)
  {
  }

  lemma StepKeepsOrder(s: State, a: Action)
    requires OneMessage(s) && Delivered(s) && InOrder(s) && Next(s, a).Some?
    ensures InOrder(Next(s, a).value)
  {
    if a.PopReply? {
      SentStep(s.done, Exchange(s.gui.sent, s.replyQ[0]));
    }
    hide Sent;
  }

  /** Only their own commands move the two flags that let the thread execute. */
  lemma FlagCommands(f: Flags, m: Message, filled: Message)
    ensures var g := Handled(f, m, filled).0;
            && g.run == (if m.cmd == SetRun then m.b else f.run)
            && g.ioPause == (if m.cmd == SetIoPause then m.b else f.ioPause)
            && g.quit == (m.cmd == Quit || f.quit)
  {
  }

  lemma StepKeepsFlags(s: State, a: Action)
    requires Guarded(s) && Commanded(s) && Next(s, a).Some?
    ensures var t := Next(s, a).value; Guarded(t) && Commanded(t)
  {
    if a.Process? {
      FlagCommands(s.flags, s.phase.m, a.filled);
      LastSetStep(s.handled, s.phase.m, SetRun);
      LastSetStep(s.handled, s.phase.m, SetIoPause);
      hide LastSet, Handled;
    } else {
      FlagsKept(s, a);
      hide LastSet, Handled, Next;
    }
  }

  lemma FlagsKept(s: State, a: Action)
    requires !a.Process? && Guarded(s) && Next(s, a).Some?
    ensures var t := Next(s, a).value;
            && Guarded(t) && t.handled == s.handled
            && t.flags.run == s.flags.run && t.flags.ioPause == s.flags.ioPause && t.flags.quit == s.flags.quit
  {
    hide Handled;
  }

  lemma StepKeepsInv(s: State, a: Action)
    requires Inv(s) && Next(s, a).Some?
    ensures Inv(Next(s, a).value)
  {
    StepKeepsDelivery(s, a);
    StepKeepsOrder(s, a);
    StepKeepsFlags(s, a);
    hide Next, OneMessage, Delivered, InOrder, Matched, Guarded, Commanded;
  }

  /** In every interleaving at most one message is under way, the reply popped is the message sent, and
      commands are handled in order. */
  lemma {:induction false} EveryInterleaving(s: State, actions: seq<Action>)
    requires Inv(s) && Run(s, actions).Some?
    ensures Inv(Run(s, actions).value)
    decreases |actions|
  {
    if actions != [] {
      StepKeepsInv(s, actions[0]);
      EveryInterleaving(Next(s, actions[0]).value, actions[1..]);
    }
  }

  /** The start: empty queues, the thread at the top of its loop with its flags cleared. */
  lemma EveryReachableState(actions: seq<Action>)
    requires Run(INITIAL, actions).Some?
    ensures Inv(Run(INITIAL, actions).value) && Truthful(Run(INITIAL, actions).value)
  {
    EveryInterleaving(INITIAL, actions);
    EveryAnswer(INITIAL, actions);
  }

  // ---------- the flags read back are those of a sequential run ----------

  /** What a command answers: breakpoints are not implemented, and only commands that do not exist are bad. */
  function Answer(c: Command): Reply
    requires !c.Delegated?
  {
    if c == SetBreakpoint then Unimplemented else if c == Unknown then BadCmd else Ok
  }

  /** What a query of a flag answers after these commands. */
  predicate FlagAnswer(m: Message, before: seq<Message>) {
    && (m.cmd == GetRun ==> m.b == LastSet(before, SetRun))
    && (m.cmd == GetIoPause ==> m.b == LastSet(before, SetIoPause))
    && (!m.cmd.Delegated? ==> m.reply == Answer(m.cmd))
  }

  ghost predicate Truthful(s: State) {
    && (forall i :: 0 <= i < |s.done| ==> FlagAnswer(s.done[i].received, Sent(s.done)[..i]))
    && (s.phase.Replying? ==> FlagAnswer(s.phase.m, Sent(s.done)))
    && (s.replyQ != [] ==> FlagAnswer(s.replyQ[0], Sent(s.done)))
  }

  lemma StepKeepsAnswers(s: State, a: Action)
    requires Inv(s) && Truthful(s) && Next(s, a).Some?
    ensures Truthful(Next(s, a).value)
  {
    hide LastSet;
    if a.PopReply? {
      var e := Exchange(s.gui.sent, s.replyQ[0]);
      SentStep(s.done, e);
      var before := Sent(s.done);
      hide Sent, FlagAnswer, Inv, Answers;
      assert forall i :: 0 <= i <= |s.done| ==> (before + [e.sent])[..i] == before[..i];
      assert before[..|s.done|] == before;
    } else if a.Process? {
      hide Sent;
      assert Sent(s.done) + [] == Sent(s.done);
    } else {
      NoProcessKeepsAnswers(s, a);
    }
  }

  lemma NoProcessKeepsAnswers(s: State, a: Action)
    requires Inv(s) && Truthful(s) && Next(s, a).Some? && !a.PopReply? && !a.Process?
    ensures Truthful(Next(s, a).value)
  {
    hide FlagAnswer, Sent, Handled, InOrder, Matched, Commanded;
  }

  /** In every interleaving a query of the run flag or of the pause flag brings back what the commands
      sent before it set, as if each had been carried out on the spot. */
  lemma {:induction false} EveryAnswer(s: State, actions: seq<Action>)
    requires Inv(s) && Truthful(s) && Run(s, actions).Some?
    ensures Truthful(Run(s, actions).value)
    decreases |actions|
  {
    if actions != [] {
      StepKeepsInv(s, actions[0]);
      StepKeepsAnswers(s, actions[0]);
      EveryAnswer(Next(s, actions[0]).value, actions[1..]);
    }
  }

  // ---------- a stop or a pause holds ----------

  /** The two ways to hold execution: clearing the run flag, or setting the pause flag. */
  datatype Hold = Stop | Pause

  predicate Held(f: Flags, h: Hold) {
    if h == Stop then !f.run else f.ioPause
  }

  /** The command that ends a hold, and the one that begins it. */
  predicate Releases(m: Message, h: Hold) {
    if h == Stop then m.cmd == SetRun && m.b else m.cmd == SetIoPause && !m.b
  }

  predicate Begins(m: Message, h: Hold) {
    if h == Stop then m.cmd == SetRun && !m.b else m.cmd == SetIoPause && m.b
  }

  /** The messages handled between two states of a run. */
  function HandledSince(s: State, t: State): seq<Message> {
    if s.handled <= t.handled then t.handled[|s.handled|..] else []
  }

  lemma StepWhileHeld(s: State, a: Action, h: Hold)
    requires Inv(s) && Held(s.flags, h) && Next(s, a).Some?
    ensures var t := Next(s, a).value;
            && t.executed == s.executed
            && s.handled <= t.handled
            && ((forall m :: m in HandledSince(s, t) ==> !Releases(m, h)) ==> Held(t.flags, h))
  {
    hide LastSet, Sent, OneMessage, Delivered, InOrder, Matched, Commanded;
    if a.Process? {
      FlagCommands(s.flags, s.phase.m, a.filled);
      hide Handled;
      assert s.phase.m in HandledSince(s, Next(s, a).value);
    } else {
      FlagsKept(s, a);
    }
  }

  lemma {:induction false} HandledGrows(s: State, actions: seq<Action>)
    requires Run(s, actions).Some?
    ensures s.handled <= Run(s, actions).value.handled
    decreases |actions|
  {
    if actions != [] {
      HandledStep(s, actions[0]);
      HandledGrows(Next(s, actions[0]).value, actions[1..]);
    }
  }

  lemma HandledStep(s: State, a: Action)
    requires Next(s, a).Some?
    ensures s.handled <= Next(s, a).value.handled
  {
  }

  /** While execution is held, and until the releasing command is handled, nothing is executed: not by
      any other command, and not by a single step. */
  lemma {:induction false} NothingRunsWhileHeld(s: State, actions: seq<Action>, h: Hold)
    requires Inv(s) && Held(s.flags, h) && Run(s, actions).Some?
    requires forall m :: m in HandledSince(s, Run(s, actions).value) ==> !Releases(m, h)
    ensures Run(s, actions).value.executed == s.executed
    decreases |actions|
  {
    if actions != [] {
      var u, t := Next(s, actions[0]).value, Run(s, actions).value;
      StepKeepsInv(s, actions[0]);
      StepWhileHeld(s, actions[0], h);
      HandledGrows(u, actions[1..]);
      hide Next, Inv, Held, Releases;
      assert forall m :: m in HandledSince(s, u) ==> m in HandledSince(s, t);
      assert forall m :: m in HandledSince(u, t) ==> m in HandledSince(s, t);
      NothingRunsWhileHeld(u, actions[1..], h);
    }
  }

  /** Once a stop or pause command has returned, nothing is executed until the releasing command is handled. */
  lemma StopHolds(s: State, actions: seq<Action>, h: Hold)
    requires Inv(s) && s.gui == Ready && s.done != [] && Begins(s.done[|s.done| - 1].sent, h)
    requires Run(s, actions).Some?
    requires forall m :: m in HandledSince(s, Run(s, actions).value) ==> !Releases(m, h)
    ensures Run(s, actions).value.executed == s.executed
  {
    var last := s.done[|s.done| - 1];
    assert s.handled == Sent(s.done);
    assert s.handled[|s.handled| - 1] == last.sent;
    assert Held(s.flags, h);
    NothingRunsWhileHeld(s, actions, h);
  }

  // ---------- single steps ----------

  /** Left to itself with empty queues, the simulator thread handles nothing. */
  lemma {:induction false} NothingToHandle(s: State, actions: seq<Action>)
    requires s.cmdQ == [] && !s.phase.Handling? && Run(s, actions).Some?
    requires forall a :: a in actions ==> !ByGui(a)
    ensures Run(s, actions).value.handled == s.handled
    decreases |actions|
  {
    if actions != [] {
      assert actions[0] in actions;
      NoCommandStep(s, actions[0]);
      NothingToHandle(Next(s, actions[0]).value, actions[1..]);
    }
  }

  lemma NoCommandStep(s: State, a: Action)
    requires s.cmdQ == [] && !s.phase.Handling? && !ByGui(a) && Next(s, a).Some?
    ensures var t := Next(s, a).value; t.cmdQ == [] && !t.phase.Handling? && t.handled == s.handled
  {
  }

  ghost predicate Leads(s: State, actions: seq<Action>) {
    (forall a :: a in actions ==> !ByGui(a)) && Run(s, actions).Some? && Run(s, actions).value.executed > s.executed
  }

  /** Three steps of the thread are a turn of its loop without a message. */
  lemma TurnTakesStep(s: State, a: Action, b: Action, c: Action)
    requires s.phase == Top && s.cmdQ == [] && !s.flags.quit && Enabled(s.flags)
    requires s.flags.singleCycle || s.flags.singleInst
    requires !ByGui(a) && !ByGui(b) && !ByGui(c) && Run(s, [a, b, c]).Some?
    ensures Stepped(s, Run(s, [a, b, c]).value)
  {
    hide Handled;
    assert [a, b, c][1..] == [b, c] && [b, c][1..] == [c] && [c][1..] == [];
    var t := Next(s, a).value;
    assert t == s.(phase := TimedPop);
    var u := Next(t, b).value;
    assert u == s.(phase := Expired);
    assert Run(s, [a, b, c]) == Run(t, [b, c]) == Run(u, [c]) == Next(u, c);
  }

  /** One cycle, if that was asked for, or else one instruction has been executed, its request is gone, and
      the thread is back at its top. */
  predicate Stepped(s: State, t: State) {
    && t.executed == s.executed + 1 && t.phase == Top
    && t.cyclesRun == s.cyclesRun + (if s.flags.singleCycle then 1 else 0)
    && t.flags.singleCycle == false && t.flags.singleInst == (s.flags.singleInst && s.flags.singleCycle)
  }

  /** A single step that was asked for is taken, if no command follows it, exactly when the simulator is
      running and not paused: then every three steps of its thread take it. A stopped simulator waits for
      its next command without a timeout, and the step waits with it. */
  lemma StepTakenIff(s: State)
    requires Inv(s) && s.phase == Top && s.cmdQ == [] && !s.flags.quit
    requires s.flags.singleCycle || s.flags.singleInst
    ensures (exists actions :: Leads(s, actions)) <==> Enabled(s.flags)
    ensures Enabled(s.flags) ==>
              forall a, b, c | !ByGui(a) && !ByGui(b) && !ByGui(c) && Run(s, [a, b, c]).Some? ::
                Stepped(s, Run(s, [a, b, c]).value)
  {
    forall a, b, c | Enabled(s.flags) && !ByGui(a) && !ByGui(b) && !ByGui(c) && Run(s, [a, b, c]).Some?
      ensures Stepped(s, Run(s, [a, b, c]).value)
    {
      TurnTakesStep(s, a, b, c);
    }
    if Enabled(s.flags) {
      var actions := [Decide, TimeOut, Execute(0, 0)];
      var t := s.(phase := TimedPop);
      var u := s.(phase := Expired);
      assert actions[1..] == [TimeOut, Execute(0, 0)] && actions[1..][1..] == [Execute(0, 0)];
      assert Next(s, Decide) == Some(t) && Next(t, TimeOut) == Some(u);
      assert Run(u, [Execute(0, 0)]) == Some(Executed(u, 0, 0));
      assert Leads(s, actions);
    } else {
      var h := if s.flags.ioPause then Pause else Stop;
      forall actions | Leads(s, actions)
        ensures false
      {
        NothingToHandle(s, actions);
        NothingRunsWhileHeld(s, actions, h);
      }
    }
  }

  /** The request that a single-step command makes. */
  predicate Asks(c: Command, f: Flags) {
    f.singleCycle == (c == SingleCycle) && f.singleInst == (c == SingleInst)
  }

  /** A running simulator that is told to take a single step, and has no other to take, answers, takes exactly
      that step in the next turn of its thread, and asks for no more: a cycle for the one command, an
      instruction for the other. */
  lemma SingleStepTaken(s: State, a: Action, b: Action, c: Action, filled: Message)
    requires s.phase.Handling? && (s.phase.m.cmd == SingleCycle || s.phase.m.cmd == SingleInst)
    requires Enabled(s.flags) && !s.flags.quit && !s.flags.singleCycle && !s.flags.singleInst && s.cmdQ == []
    requires !ByGui(a) && !ByGui(b) && !ByGui(c)
    requires Run(s, [Process(filled), SendReply]).Some?
    requires Run(Run(s, [Process(filled), SendReply]).value, [a, b, c]).Some?
    ensures var t := Run(s, [Process(filled), SendReply]).value;
            var u := Run(t, [a, b, c]).value;
            && t.phase == Top && Asks(s.phase.m.cmd, t.flags) && t.executed == s.executed
            && u.executed == s.executed + 1
            && u.cyclesRun == s.cyclesRun + (if s.phase.m.cmd == SingleCycle then 1 else 0)
            && !u.flags.singleCycle && !u.flags.singleInst
  {
    assert [Process(filled), SendReply][1..] == [SendReply] && [SendReply][1..] == [];
    var (f, m) := Handled(s.flags, s.phase.m, filled);
    var p := s.(phase := Replying(m), flags := f, handled := s.handled + [s.phase.m]);
    var t := p.(phase := Top, replyQ := s.replyQ + [m]);
    assert Next(s, Process(filled)) == Some(p) && Next(p, SendReply) == Some(t);
    assert Run(s, [Process(filled), SendReply]) == Run(p, [SendReply]) == Run(t, []) == Some(t);
    TurnTakesStep(t, a, b, c);
    hide Run, Next;
  }

  /** A simulator that runs, is not paused and has nothing else to do executes instructions: every turn of its
      thread without a message is a burst, of which every step but the one that ends it executes one. */
  lemma RunningExecutes(s: State, a: Action, b: Action, c: Action, d: Action)
    requires s.phase == Top && s.cmdQ == [] && !s.flags.quit && Enabled(s.flags)
    requires !s.flags.singleCycle && !s.flags.singleInst
    requires !ByGui(a) && !ByGui(b) && !ByGui(c) && !ByGui(d) && Run(s, [a, b, c, d]).Some?
    ensures c.Execute? && d.Instruction?
    ensures var t := Run(s, [a, b, c, d]).value;
            && t.executed == s.executed + (if c.burst == 0 then 0 else 1)
            && t.flags == s.flags.(cycles := s.flags.cycles + if c.burst == 0 then 0 else d.elapsed)
            && (d.more && c.burst > 0 ==> t.phase == Bursting(c.burst - 1))
  {
    hide Handled;
    assert [a, b, c, d][1..] == [b, c, d] && [b, c, d][1..] == [c, d] && [c, d][1..] == [d] && [d][1..] == [];
    var t := Next(s, a).value;
    assert t == s.(phase := TimedPop);
    var u := Next(t, b).value;
    assert u == s.(phase := Expired);
    assert Run(s, [a, b, c, d]) == Run(t, [b, c, d]) == Run(u, [c, d]);
    assert Next(u, c).Some?;
    var v := Next(u, c).value;
    assert v == s.(phase := Bursting(c.burst));
    assert Run(u, [c, d]) == Run(v, [d]) == Next(v, d);
  }

  /** The first command sent to a new simulator will be answered (`BoundedResponse`), and nothing is executed
      before it is. */
  lemma FirstCommand(m: Message)
    ensures Next(INITIAL, Push(m)).Some?
    ensures var s := Next(INITIAL, Push(m)).value;
            Expected(s) && s.executed == 0 && StepsToReply(s) == 4 && !Enabled(s.flags)
            && !s.flags.singleCycle && !s.flags.singleInst
  {
  }

  // ---------- the cycle count ----------

  /** The commands that set the count. */
  predicate SetsCount(c: Command) {
    c == SetCycles || (c.Event? && c.reset)
  }

  /** What such a command sets it to. */
  function SetTo(m: Message): nat {
    if m.cmd == SetCycles then m.cycles else 0
  }

  /** The cycles that an action takes in this state. */
  function Taken(s: State, a: Action): nat {
    match a
    case Execute(_, elapsed) => if s.flags.singleCycle || s.flags.singleInst then elapsed else 0
    case Instruction(_, elapsed) => if s.phase == Bursting(0) then 0 else elapsed
    case _ => 0
  }

  /** The cycles that the instructions of a run take together. */
  function Elapsed(s: State, actions: seq<Action>): nat
    requires Run(s, actions).Some?
    decreases |actions|
  {
    if actions == [] then 0 else Taken(s, actions[0]) + Elapsed(Next(s, actions[0]).value, actions[1..])
  }

  lemma StepCounts(s: State, a: Action)
    requires Guarded(s) && Next(s, a).Some?
    requires a.Process? ==> !SetsCount(s.phase.m.cmd)
    ensures Next(s, a).value.flags.cycles == s.flags.cycles + Taken(s, a)
    ensures Taken(s, a) > 0 ==> Next(s, a).value.executed == s.executed + 1
  {
  }

  /** As long as no command sets it, the cycle count grows by the cycles of everything that is executed. */
  lemma {:induction false} RunCounts(s: State, actions: seq<Action>)
    requires Inv(s) && Run(s, actions).Some?
    requires forall m :: m in HandledSince(s, Run(s, actions).value) ==> !SetsCount(m.cmd)
    ensures Run(s, actions).value.flags.cycles == s.flags.cycles + Elapsed(s, actions)
    decreases |actions|
  {
    if actions != [] {
      var u, t := Next(s, actions[0]).value, Run(s, actions).value;
      StepKeepsInv(s, actions[0]);
      HandledStep(s, actions[0]);
      HandledGrows(u, actions[1..]);
      NoSetterFirst(s, actions);
      StepCounts(s, actions[0]);
      RunCounts(u, actions[1..]);
    }
  }

  lemma NoSetterFirst(s: State, actions: seq<Action>)
    requires actions != [] && Run(s, actions).Some?
    requires forall m :: m in HandledSince(s, Run(s, actions).value) ==> !SetsCount(m.cmd)
    ensures var u, t := Next(s, actions[0]).value, Run(s, actions).value;
            && (actions[0].Process? ==> !SetsCount(s.phase.m.cmd))
            && forall m :: m in HandledSince(u, t) ==> !SetsCount(m.cmd)
  {
    hide Handled, Executed, SetsCount;
    var u, t := Next(s, actions[0]).value, Run(s, actions).value;
    HandledStep(s, actions[0]);
    HandledGrows(u, actions[1..]);
    assert forall m :: m in HandledSince(u, t) ==> m in HandledSince(s, t);
    if actions[0].Process? {
      assert u.handled == s.handled + [s.phase.m];
      assert t.handled[|s.handled|] == s.phase.m;
    }
  }

  /** A query of the count answers what the last command that set it made it, plus the cycles of everything
      executed since. */
  lemma CyclesReported(s: State, filled: Message, actions: seq<Action>, query: Message)
    requires Inv(s) && s.phase.Handling? && SetsCount(s.phase.m.cmd)
    requires Run(Next(s, Process(filled)).value, actions).Some?
    requires var t := Next(s, Process(filled)).value;
             var u := Run(t, actions).value;
             && (forall m :: m in HandledSince(t, u) ==> !SetsCount(m.cmd))
             && u.phase == Handling(query) && query.cmd == GetCycles
    ensures var t := Next(s, Process(filled)).value;
            Next(Run(t, actions).value, Process(filled)).value.phase
            == Replying(query.(cycles := SetTo(s.phase.m) + Elapsed(t, actions), reply := Ok))
  {
    var t := Next(s, Process(filled)).value;
    StepKeepsInv(s, Process(filled));
    RunCounts(t, actions);
    assert t.flags.cycles == SetTo(s.phase.m);
    hide Inv, Run;
  }

  // ---------- every command is answered ----------

  /** A bound on the steps the simulator thread takes before its reply is there. */
  function StepsToReply(s: State): nat {
    match s.phase
    case Replying(_) => 1
    case Handling(_) => 2
    case TimedPop => 3
    case BlockedPop => 3
    case Top => 4
    case Bursting(left) => 5 + left
    case Expired => 6 + MAX_INST_BURST
    case Exited => 0
  }

  /** A message is under way and will still be looked at. */
  ghost predicate Expected(s: State) {
    s.gui != Ready && s.replyQ == [] && s.phase != Exited && (s.cmdQ != [] ==> !s.flags.quit)
  }

  /** The thread can always go on while a reply is expected, and every step it takes brings the reply nearer. */
  lemma ReplyNearer(s: State)
    requires Inv(s) && Expected(s)
    ensures exists a :: !ByGui(a) && Next(s, a).Some?
    ensures forall a :: !ByGui(a) && Next(s, a).Some? ==>
              var t := Next(s, a).value; t.replyQ != [] || (Expected(t) && StepsToReply(t) < StepsToReply(s))
  {
    hide LastSet, Sent, Delivered, InOrder, Matched, Commanded;
    CanGoOn(s);
    forall a | !ByGui(a) && Next(s, a).Some?
      ensures var t := Next(s, a).value; t.replyQ != [] || (Expected(t) && StepsToReply(t) < StepsToReply(s))
    {
      hide Handled;
      if !a.Process? {
        FlagsKept(s, a);
      }
    }
  }

  /** The bound as a number. */
  lemma WithinBound(s: State)
    requires Guarded(s)
    ensures StepsToReply(s) <= 5006
  {
  }

  lemma CanGoOn(s: State)
    requires OneMessage(s) && Expected(s)
    ensures exists a :: !ByGui(a) && Next(s, a).Some?
  {
    var a := match s.phase
      case Top => Decide
      case TimedPop => TakeCommand
      case BlockedPop => TakeCommand
      case Handling(m) => Process(m)
      case Replying(_) => SendReply
      case Expired => Execute(0, 0)
      case Bursting(_) => Instruction(false, 0)
      case Exited => Decide;
    assert !ByGui(a) && Next(s, a).Some?;
  }

  /** A command sent to a simulator that has not been told to quit is answered within a bounded number of
      steps of its thread, one burst of instructions at most lying between. */
  lemma {:induction false} BoundedResponse(s: State, actions: seq<Action>)
    requires Inv(s) && Expected(s)
    requires (forall a :: a in actions ==> !ByGui(a)) && Run(s, actions).Some?
    requires |actions| >= StepsToReply(s)
    ensures exists k :: 0 <= k <= |actions| && Run(s, actions[..k]).Some? && Run(s, actions[..k]).value.replyQ != []
    decreases |actions|
  {
    ReplyNearer(s);
    var a, rest := actions[0], actions[1..];
    assert a in actions;
    var t := Next(s, a).value;
    StepKeepsInv(s, a);
    if t.replyQ != [] {
      assert actions[..1][1..] == [] && Run(t, []) == Some(t);
      assert Run(s, actions[..1]).Some?;
    } else {
      BoundedResponse(t, rest);
      var k :| 0 <= k <= |rest| && Run(t, rest[..k]).Some? && Run(t, rest[..k]).value.replyQ != [];
      assert actions[..k + 1][1..] == rest[..k];
      assert Run(s, actions[..k + 1]).Some?;
    }
  }

  /** A command sent after the simulator was told to quit is never answered: the thread leaves its loop
      without looking at the queue again. */
  lemma {:induction false} NoReplyAfterQuit(s: State, actions: seq<Action>)
    requires s.flags.quit && s.cmdQ != [] && s.replyQ == [] && (s.phase == Top || s.phase == Exited)
    requires Run(s, actions).Some?
    ensures Run(s, actions).value.replyQ == []
    decreases |actions|
  {
    if actions != [] {
      NoReplyAfterQuit(Next(s, actions[0]).value, actions[1..]);
    }
  }

  // ---------- the code of the simulator thread ----------

  /** What an instruction would do: whether the burst may go on after it, and the cycles it takes. */
  datatype Outcome = Outcome(more: bool, elapsed: nat)

  function BurstLimit(wanted: nat): nat {
    if wanted > MAX_INST_BURST then MAX_INST_BURST else wanted
  }

  /** The steps of a burst. */
  function BurstActions(next: seq<Outcome>, left: nat): seq<Action>
    requires left <= |next|
  {
    if left == 0 then [Instruction(true, 0)]
    else [Instruction(next[0].more, next[0].elapsed)] + if next[0].more then BurstActions(next[1..], left - 1) else []
  }

  lemma BurstStep(s: State, next: seq<Outcome>, left: nat)
    requires s.phase == Bursting(left) && left <= |next|
    ensures Run(s, BurstActions(next, left)) ==
            if left == 0 then Some(s.(phase := Top))
            else
              var t := Ran(s, next[0].elapsed);
              if next[0].more then Run(t.(phase := Bursting(left - 1)), BurstActions(next[1..], left - 1))
              else Some(t.(phase := Top))
  {
    var a := BurstActions(next, left);
    if left > 0 && next[0].more {
      assert a[1..] == BurstActions(next[1..], left - 1);
    } else {
      assert a[1..] == [];
    }
  }

  class Simulator {
    var quit: bool
    var ioPause: bool
    var run: bool
    var singleCycle: bool
    var singleInst: bool
    var cycles: nat

    function Now(): Flags
      reads this
    {
      Flags(quit, ioPause, run, singleCycle, singleInst, cycles)
    }

    /** handle_sim_cmd: the reply is left UNIMPLEMENTED by a command without an implementation. */
    method HandleSimCmd(msg: Message, filled: Message) returns (r: Message)
      modifies this
      ensures (Now(), r) == Handled(old(Now()), msg, filled)
    {
      r := msg.(reply := Unimplemented);
      match msg.cmd
      case Quit =>
        quit := true;
        r := r.(reply := Ok);
      case SetIoPause =>
        ioPause := r.b;
        r := r.(reply := Ok);
      case GetIoPause =>
        r := r.(b := ioPause, reply := Ok);
      case SetRun =>
        run := r.b;
        r := r.(reply := Ok);
      case GetRun =>
        r := r.(b := run, reply := Ok);
      case SetCycles =>
        cycles := r.cycles;
        r := r.(reply := Ok);
      case GetCycles =>
        r := r.(cycles := cycles, reply := Ok);
      case SingleCycle =>
        singleCycle := true;
        r := r.(reply := Ok);
      case SingleInst =>
        singleInst := true;
        r := r.(reply := Ok);
      case SetBreakpoint =>
      case Event(reset) =>
        if reset {
          cycles := 0;
        }
        r := r.(reply := Ok);
      case Delegated(_) =>
        r := filled.(id := msg.id, cmd := msg.cmd);
      case Unknown =>
        r := r.(reply := BadCmd);
    }

    /** sim_run: a burst, cut short by an instruction that asks for it. */
    method SimRun(ghost s: State, wanted: nat, next: seq<Outcome>) returns (executed: nat)
      requires |next| >= BurstLimit(wanted)
      requires s.phase == Bursting(BurstLimit(wanted)) && s.flags == Now()
      modifies this
      ensures Run(s, BurstActions(next, BurstLimit(wanted)))
              == Some(s.(phase := Top, flags := Now(), executed := s.executed + executed))
    {
      var instCount: nat := wanted;
      if instCount > MAX_INST_BURST {
        instCount := MAX_INST_BURST;
      }
      executed := 0;
      ghost var n := instCount;
      ghost var t := s;
      while instCount > 0
        invariant instCount + executed == n
        invariant t == s.(phase := Bursting(instCount), flags := Now(), executed := s.executed + executed)
        invariant Run(s, BurstActions(next, n)) == Run(t, BurstActions(next[executed..], instCount))
      {
        BurstStep(t, next[executed..], instCount);
        assert next[executed..][1..] == next[executed + 1..];
        hide Run, BurstActions, Next;
        instCount := instCount - 1;
        var outcome := next[executed];
        cycles := cycles + outcome.elapsed;
        executed := executed + 1;
        t := Ran(t, outcome.elapsed).(phase := Bursting(instCount));
        if !outcome.more {
          return;
        }
      }
      BurstStep(t, next[executed..], 0);
    }

    /** One turn of the loop of sim_thread_func behind the queue. Without a message it takes the steps
        that the interleaving model takes from an expired wait. */
    method Turn(ghost s: State, msg: Option<Message>, filled: Message, elapsed: nat, wanted: nat, next: seq<Outcome>)
      returns (reply: Option<Message>, executed: nat)
      requires |next| >= BurstLimit(wanted) && s.phase == Expired && s.flags == Now()
      modifies this
      ensures msg.Some?
              ==> executed == 0 && reply.Some? && (Now(), reply.value) == Handled(old(Now()), msg.value, filled)
      ensures msg.None? ==>
                var t := Executed(s, BurstLimit(wanted), elapsed);
                && reply == None
                && (if t.phase.Bursting? then Run(t, BurstActions(next, BurstLimit(wanted))) else Some(t))
                   == Some(s.(phase := Top, flags := Now(), executed := s.executed + executed,
                              cyclesRun := t.cyclesRun))
    {
      hide Run, BurstActions, Handled;
      executed, reply := 0, None;
      if msg.Some? {
        var r := HandleSimCmd(msg.value, filled);
        reply := Some(r);
        return;
      }
      if ioPause {
        return;
      }
      if singleCycle {
        cycles, executed := cycles + elapsed, 1;
        singleCycle := false;
      } else if singleInst {
        cycles, executed := cycles + elapsed, 1;
        singleInst := false;
      } else if run {
        executed := SimRun(s.(phase := Bursting(BurstLimit(wanted))), wanted, next);
      }
    }
  }
}
