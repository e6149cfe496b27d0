/** The return address stacks of the Woodstock processor (src/proc_woodstock.c, circular, two entries)
    and of the Nut processor (src/proc_nut.c, shifting, four entries), run against nested calls. */
module ReturnStacks {

  /** A well-bracketed trace: a call that will return to `ret`, what happens inside it, and what follows
      its return. */
  datatype Calls = Done | Call(ret: nat, inner: Calls, next: Calls)

  function Max(a: nat, b: nat): nat {
    if a < b then b else a
  }

  function Depth(calls: Calls): nat {
    match calls
    case Done => 0
    case Call(_, inner, next) => Max(1 + Depth(inner), Depth(next))
  }

  // ---------- Woodstock: a circular stack ----------

  datatype Circular = Circular(sp: nat, slots: seq<nat>)

  predicate Proper(c: Circular) {
    c.sp < 2 && |c.slots| == 2
  }

  function Jsb(c: Circular, ret: nat): Circular
    requires Proper(c)
  {
    Circular(if c.sp + 1 >= 2 then 0 else c.sp + 1, c.slots[c.sp := ret])
  }

  /** The address returned to, and the stack after it; the slot keeps its contents. */
  function Return(c: Circular): (nat, Circular)
    requires Proper(c)
  {
    var sp := if c.sp == 0 then 1 else c.sp - 1;
    (c.slots[sp], c.(sp := sp))
  }

  /** The stack after a trace, and whether every return went back to its own call. */
  function RunCircular(calls: Calls, c: Circular): (r: (bool, Circular))
    requires Proper(c)
    ensures Proper(r.1) && r.1.sp == c.sp
  {
    match calls
    case Done => (true, c)
    case Call(ret, inner, next) =>
      var (ok, inside) := RunCircular(inner, Jsb(c, ret));
      var (pc, after) := Return(inside);
      var (rest, end) := RunCircular(next, after);
      (ok && pc == ret && rest, end)
  }

  /** The entry k calls down from the top. */
  function Live(c: Circular, k: nat): nat
    requires Proper(c) && 1 <= k <= 2
  {
    c.slots[(c.sp + 2 - k) % 2]
  }

  /** What a trace leaves in the slot that its outermost calls write, which held w, and in the other slot.
      The two slots take turns: a call nested inside another writes the slot the outer one did not. */
  function Outer(calls: Calls, w: nat): nat {
    match calls
    case Done => w
    case Call(ret, inner, next) => Outer(next, Other(inner, ret))
  }

  function Other(calls: Calls, w: nat): nat {
    match calls
    case Done => w
    case Call(_, inner, next) => Other(next, Outer(inner, w))
  }

  /** Whatever shares the slot of a call, two, four or more levels further in, leaves the call's own
      address there at the end. */
  predicate SlotsKept(calls: Calls) {
    match calls
    case Done => true
    case Call(ret, inner, next) => Other(inner, ret) == ret && SlotsKept(inner) && SlotsKept(next)
  }

  /** What happens on the circular stack in a trace of any depth: every return goes back to its own call
      exactly when the slots are kept, and the entries end as the trace leaves the two slots. */
  lemma {:induction false} CircularExactly(calls: Calls, c: Circular)
    requires Proper(c)
    ensures var (ok, end) := RunCircular(calls, c);
            (ok <==> SlotsKept(calls)) && Live(end, 1) == Other(calls, Live(c, 1))
                && Live(end, 2) == Outer(calls, Live(c, 2))
  {
    match calls
    case Done =>
    case Call(ret, inner, next) =>
      var called := Jsb(c, ret);
      CircularExactly(inner, called);
      assert Live(called, 1) == ret && Live(called, 2) == Live(c, 1);
      var (_, inside) := RunCircular(inner, called);
      var (pc, after) := Return(inside);
      assert pc == Live(inside, 1) == Live(after, 2) && Live(after, 1) == Live(inside, 2);
      CircularExactly(next, after);
  }

  /** A trace no deeper than two levels keeps the slots, and a shallower one the entries beyond it. */
  lemma {:induction false} ShallowKeepsSlots(calls: Calls, w: nat)
    ensures Depth(calls) == 0 ==> Outer(calls, w) == w
    ensures Depth(calls) <= 1 ==> Other(calls, w) == w
    ensures Depth(calls) <= 2 ==> SlotsKept(calls)
  {
    if calls.Call? {
      ShallowKeepsSlots(calls.inner, w);
      ShallowKeepsSlots(calls.inner, calls.ret);
      ShallowKeepsSlots(calls.next, w);
    }
  }

  /** Calls nested at most two deep return to their own callers, and leave as many of the enclosing
      entries alone as the two slots have left over. */
  lemma CircularReturns(calls: Calls, c: Circular)
    requires Proper(c) && Depth(calls) <= 2
    ensures var (ok, end) := RunCircular(calls, c);
            ok && forall k :: 1 <= k <= 2 - Depth(calls) ==> Live(end, k) == Live(c, k)
  {
    CircularExactly(calls, c);
    ShallowKeepsSlots(calls, Live(c, 1));
    ShallowKeepsSlots(calls, Live(c, 2));
  }

  lemma OneCall(ret: nat, w: nat)
    ensures Outer(Call(ret, Done, Done), w) == ret && Other(Call(ret, Done, Done), w) == w
            && SlotsKept(Call(ret, Done, Done))
  {
  }

  /** A third level overwrites the first: the outermost call then returns to the innermost one's address. */
  lemma ThirdLevelIsLost(c: Circular, a: nat, b: nat, d: nat)
    requires Proper(c)
    ensures RunCircular(Call(a, Call(b, Call(d, Done, Done), Done), Done), c).0 <==> a == d
  {
    var third := Call(d, Done, Done);
    var second := Call(b, third, Done);
    hide RunCircular;
    CircularExactly(Call(a, second, Done), c);
    OneCall(d, a);
    OneCall(d, b);
    hide Proper, Live;
  }

  // ---------- Nut: a shifting stack ----------

  type Shifting = s: seq<nat> | |s| == 4 witness [0, 0, 0, 0]

  function Push(s: Shifting, ret: nat): Shifting {
    [ret] + s[..3]
  }

  function Pop(s: Shifting): (nat, Shifting) {
    (s[0], s[1..] + [0])
  }

  function RunShifting(calls: Calls, s: Shifting): (bool, Shifting) {
    match calls
    case Done => (true, s)
    case Call(ret, inner, next) =>
      var (ok, inside) := RunShifting(inner, Push(s, ret));
      var (pc, after) := Pop(inside);
      var (rest, end) := RunShifting(next, after);
      (ok && pc == ret && rest, end)
  }

  function Zeros(n: nat): (z: seq<nat>)
    ensures |z| == n
  {
    seq(n, _ => 0)
  }

  /** What is left of the stack when d entries have fallen off its bottom. */
  function Emptied(s: Shifting, d: nat): Shifting {
    if d >= 4 then Zeros(4) else s[..4 - d] + Zeros(d)
  }

  /** A call inside which four more levels are nested has its entry pushed off the bottom; it comes back
      as zero. */
  predicate OverflowsReturnToZero(calls: Calls) {
    match calls
    case Done => true
    case Call(ret, inner, next) =>
      (Depth(inner) >= 4 ==> ret == 0) && OverflowsReturnToZero(inner) && OverflowsReturnToZero(next)
  }

  /** A trace takes exactly as many entries off the bottom of the stack as it is deep, and all its returns
      go back to their own calls exactly when the calls that overflowed were to return to zero. */
  lemma {:induction false} ShiftingReturns(calls: Calls, s: Shifting)
    ensures RunShifting(calls, s).1 == Emptied(s, Depth(calls))
    ensures RunShifting(calls, s).0 <==> OverflowsReturnToZero(calls)
  {
    match calls
    case Done =>
    case Call(ret, inner, next) =>
      ShiftingReturns(inner, Push(s, ret));
      var (pc, after) := Pop(Emptied(Push(s, ret), Depth(inner)));
      PopAfter(s, ret, Depth(inner));
      ShiftingReturns(next, after);
      EmptiedTwice(s, 1 + Depth(inner), Depth(next));
  }

  lemma PopAfter(s: Shifting, ret: nat, d: nat)
    ensures Pop(Emptied(Push(s, ret), d)) == (if d >= 4 then 0 else ret, Emptied(s, 1 + d))
  {
    var e := Emptied(Push(s, ret), d);
    assert e[1..] + [0] == Emptied(s, 1 + d);
  }

  lemma EmptiedTwice(s: Shifting, a: nat, b: nat)
    ensures Emptied(Emptied(s, a), b) == Emptied(s, Max(a, b))
  {
  }

  lemma {:induction false} ShallowNeverOverflows(calls: Calls)
    requires Depth(calls) <= 4
    ensures OverflowsReturnToZero(calls)
  {
    if calls.Call? {
      ShallowNeverOverflows(calls.inner);
      ShallowNeverOverflows(calls.next);
    }
  }

  /** Calls nested at most four deep return to their own callers and keep the enclosing entries that the
      four slots have left over. */
  lemma ShallowShiftingReturns(calls: Calls, s: Shifting)
    requires Depth(calls) <= 4
    ensures RunShifting(calls, s).0 && RunShifting(calls, s).1[..4 - Depth(calls)] == s[..4 - Depth(calls)]
  {
    ShiftingReturns(calls, s);
    ShallowNeverOverflows(calls);
  }

  /** push. */
  method PushAddress(stack: array<nat>, a: nat)
    requires stack.Length == 4
    modifies stack
    ensures stack[..] == Push(old(stack[..]), a)
  {
    var i := 3;
    while i > 0
      invariant 0 <= i <= 3
      invariant forall k :: 0 <= k <= i ==> stack[k] == old(stack[k])
      invariant forall k :: i < k < 4 ==> stack[k] == old(stack[k - 1])
    {
      stack[i] := stack[i - 1];
      i := i - 1;
    }
    stack[0] := a;
  }

  /** pop. */
  method PopAddress(stack: array<nat>) returns (ret: nat)
    requires stack.Length == 4
    modifies stack
    ensures (ret, stack[..]) == Pop(old(stack[..]))
  {
    ret := stack[0];
    for i := 0 to 3
      invariant forall k :: 0 <= k < i ==> stack[k] == old(stack[k + 1])
      invariant forall k :: i <= k < 4 ==> stack[k] == old(stack[k])
    {
      stack[i] := stack[i + 1];
    }
    stack[3] := 0;
    assert stack[..] == old(stack[..])[1..] + [0];
  }
}
