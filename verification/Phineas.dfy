/** The clock chip of src/phineas.c: two 14-digit decimal clocks with alarms, and an interval timer. */
module Phineas {
  import opened DigitOps
  import opened Numbers

  const WSIZE := 14
  const INTERVAL_WIDTH := 5
  const STATUS_WIDTH := 4

  const PS_ALMA := 0
  const PS_DTZA := 1
  const PS_DTZIT := 4
  const PS_PUS := 5
  const PS_CKAEN := 6
  const PS_ALAEN := 8
  const PS_ITEN := 10
  const PS_TESTA := 11

  const CYCLE := 100_000_000_000_000
  const UINT32 := 0x1_0000_0000

  // ---------- what a clock means ----------

  /** One clock with its alarm and its four status bits. */
  datatype Timer = Timer(clock: nat, alarm: nat, running: bool, alarmEnabled: bool, dtz: bool, alm: bool)

  /** The alarm value is one of those the clock shows while it advances by k, the start not included. */
  ghost predicate Passes(start: nat, k: nat, alarm: nat) {
    exists i :: 1 <= i <= k && Shows(start, i, alarm)
  }

  ghost predicate Shows(start: nat, i: nat, value: nat) {
    (start + i) % CYCLE == value
  }

  /** A running clock counts modulo 10^14; the wrap sets one sticky flag and passing the alarm the other. */
  ghost function Advance(t: Timer, ticks: nat): Timer {
    if !t.running then t
    else t.(clock := (t.clock + ticks) % CYCLE,
            dtz := t.dtz || t.clock + ticks >= CYCLE,
            alm := t.alm || (t.alarmEnabled && Passes(t.clock, ticks, t.alarm)))
  }

  /** The two comparisons the program makes decide whether the alarm is passed. */
  lemma AlarmComparison(start: nat, k: nat, alarm: nat)
    requires start < CYCLE && alarm < CYCLE && k < CYCLE
    ensures var overflow := start + k >= CYCLE;
            var next := if overflow then start + k - CYCLE else start + k;
            Passes(start, k, alarm)
            <==> if overflow then alarm > start || alarm <= next else alarm > start && alarm <= next
  {
    if alarm > start {
      if alarm - start <= k {
        assert Shows(start, alarm - start, alarm);
      }
    } else if alarm + CYCLE - start <= k {
      assert Shows(start, alarm + CYCLE - start, alarm);
    }
    forall i | 1 <= i <= k && Shows(start, i, alarm)
      ensures i == alarm - start || i == alarm + CYCLE - start
    {
    }
  }

  lemma ShowsFrom(start: nat, j: nat, i: nat, value: nat)
    ensures Shows((start + j) % CYCLE, i, value) <==> Shows(start, j + i, value)
  {
    assert ((start + j) % CYCLE + i) % CYCLE == (start + (j + i)) % CYCLE;
  }

  lemma PassesInTwo(start: nat, j: nat, k: nat, alarm: nat)
    ensures Passes(start, j + k, alarm) <==> Passes(start, j, alarm) || Passes((start + j) % CYCLE, k, alarm)
  {
    if Passes(start, j + k, alarm) {
      var i :| 1 <= i <= j + k && Shows(start, i, alarm);
      if i > j {
        ShowsFrom(start, j, i - j, alarm);
        assert Shows((start + j) % CYCLE, i - j, alarm);
      }
    }
    if Passes((start + j) % CYCLE, k, alarm) {
      var i :| 1 <= i <= k && Shows((start + j) % CYCLE, i, alarm);
      ShowsFrom(start, j, i, alarm);
      assert Shows(start, j + i, alarm);
    }
  }

  /** Advancing in two steps is advancing once: clock and both sticky flags. */
  lemma AdvanceInTwo(t: Timer, j: nat, k: nat)
    requires t.clock < CYCLE && j + k < CYCLE
    ensures Advance(Advance(t, j), k) == Advance(t, j + k)
  {
    if t.running {
      PassesInTwo(t.clock, j, k, t.alarm);
      assert ((t.clock + j) % CYCLE + k) % CYCLE == (t.clock + (j + k)) % CYCLE;
    }
  }

  /** One tick: the counter goes on to the next value, 0 following 10^14 - 1, and compares it with the alarm. */
  function Tick(t: Timer): Timer {
    if !t.running then t
    else
      var next := if t.clock + 1 == CYCLE then 0 else t.clock + 1;
      t.(clock := next, dtz := t.dtz || next == 0, alm := t.alm || (t.alarmEnabled && next == t.alarm))
  }

  lemma TickAdvances(t: Timer)
    requires t.clock < CYCLE && t.alarm < CYCLE
    ensures Advance(t, 1) == Tick(t)
  {
    AlarmComparison(t.clock, 1, t.alarm);
  }

  function SingleTicks(t: Timer, k: nat): Timer {
    if k == 0 then t else Tick(SingleTicks(t, k - 1))
  }

  /** k single ticks are one advance by k. */
  lemma {:induction false} SingleTicksAdvance(t: Timer, k: nat)
    requires t.clock < CYCLE && t.alarm < CYCLE && k < CYCLE
    ensures SingleTicks(t, k) == Advance(t, k)
  {
    if k == 0 {
      assert !Passes(t.clock, 0, t.alarm);
    } else {
      SingleTicksAdvance(t, k - 1);
      AdvanceInTwo(t, k - 1, 1);
      TickAdvances(Advance(t, k - 1));
    }
  }

  // ---------- what the interval timer means ----------

  datatype Interval = Interval(val: nat, terminal: nat, enabled: bool, dtz: bool)

  /** The sum is a 32-bit one. */
  function TickInterval(v: Interval, ticks: nat): Interval {
    var next := (v.val + ticks) % UINT32;
    if !v.enabled then v
    else if next >= v.terminal then v.(val := 0, dtz := true)
    else v.(val := next)
  }

  ghost function IntervalTicks(v: Interval, k: nat): Interval {
    if k == 0 then v else TickInterval(IntervalTicks(v, k - 1), 1)
  }

  /** The number of ticks in one round. A terminal count of zero acts as one. */
  function Period(v: Interval): (p: nat)
    ensures p >= 1
  {
    if v.terminal == 0 then 1 else v.terminal
  }

  /** Ticked one at a time, the interval timer counts modulo its terminal count, and its flag is set exactly
      when it has come round. A timer that is not enabled stays as it is. */
  lemma {:induction false} IntervalPeriod(v: Interval, k: nat)
    requires v.terminal < UINT32 && v.val < Period(v)
    ensures IntervalTicks(v, k)
            == if v.enabled then v.(val := (v.val + k) % Period(v), dtz := v.dtz || v.val + k >= Period(v)) else v
  {
    var period := Period(v);
    if k == 0 {
      SmallModulo(v.val, period);
    } else {
      IntervalPeriod(v, k - 1);
      if v.enabled {
        var n := v.val + k - 1;
        NextModulo(n, period);
        var prev, r := IntervalTicks(v, k - 1), n % period;
        assert prev == v.(val := r, dtz := v.dtz || n >= period);
        OneTick(prev, r, period);
        if n < period {
          SmallModulo(n, period);
        }
      }
    }
  }

  /** Several ticks at once are as many single ones, unless the timer comes round before the last of them. */
  lemma IntervalAtOnce(v: Interval, k: nat)
    requires v.terminal < UINT32 && v.val < Period(v) && 1 <= k && v.val + k <= Period(v)
    ensures TickInterval(v, k) == IntervalTicks(v, k)
  {
    hide IntervalTicks;
    IntervalPeriod(v, k);
    if v.val + k < Period(v) {
      SmallModulo(v.val + k, Period(v));
    } else {
      FullModulo(Period(v));
    }
  }

  lemma FullModulo(m: nat)
    requires m > 0
    ensures m % m == 0
  {
  }

  lemma OneTick(v: Interval, r: nat, period: nat)
    requires v.enabled && v.val == r < period < UINT32
    requires period == if v.terminal == 0 then 1 else v.terminal
    ensures TickInterval(v, 1) == if r + 1 == period then v.(val := 0, dtz := true) else v.(val := r + 1)
  {
  }

  // ---------- status bits ----------

  function PowerOfTwo(k: nat): (p: nat)
    requires k < 4
  {
    if k == 0 then 1 else if k == 1 then 2 else if k == 2 then 4 else 8
  }

  predicate DigitBit(d: Digit, k: nat)
    requires k < 4
  {
    (if k == 0 then d else if k == 1 then d / 2 else if k == 2 then d / 4 else d / 8) % 2 == 1
  }

  function WithDigitBit(d: Digit, k: nat, val: bool): Digit
    requires k < 4
  {
    if DigitBit(d, k) == val then d else if val then d + PowerOfTwo(k) else d - PowerOfTwo(k)
  }

  lemma Nibble(b0: nat, b1: nat, b2: nat, b3: nat)
    requires b0 < 2 && b1 < 2 && b2 < 2 && b3 < 2
    ensures var d := b0 + 2 * b1 + 4 * b2 + 8 * b3;
            && (DigitBit(d, 0) <==> b0 == 1) && (DigitBit(d, 1) <==> b1 == 1)
            && (DigitBit(d, 2) <==> b2 == 1) && (DigitBit(d, 3) <==> b3 == 1)
  {
  }

  lemma DigitBitSet(d: Digit, k: nat, val: bool)
    requires k < 4
    ensures forall j :: 0 <= j < 4 ==>
              (DigitBit(WithDigitBit(d, k, val), j) <==> if j == k then val else DigitBit(d, j))
  {
    var b0, b1, b2, b3 := d % 2, d / 2 % 2, d / 4 % 2, d / 8;
    assert d == b0 + 2 * b1 + 4 * b2 + 8 * b3;
    Nibble(b0, b1, b2, b3);
    var r := WithDigitBit(d, k, val);
    var v := if val then 1 else 0;
    if k == 0 {
      assert r == v + 2 * b1 + 4 * b2 + 8 * b3;
      Nibble(v, b1, b2, b3);
    } else if k == 1 {
      Nibble(b0, v, b2, b3);
    } else if k == 2 {
      Nibble(b0, b1, v, b3);
    } else {
      Nibble(b0, b1, b2, v);
    }
  }

  predicate StatusBit(status: seq<Digit>, bit: nat)
    requires |status| == STATUS_WIDTH && bit < 16
  {
    DigitBit(status[bit / 4], bit % 4)
  }

  /** The four status digits with one bit changed. */
  ghost predicate OneBitSet(before: seq<Digit>, bit: nat, val: bool, after: seq<Digit>)
    requires |before| == STATUS_WIDTH && bit < 16
  {
    && |after| == STATUS_WIDTH
    && forall b :: 0 <= b < 16 ==> (StatusBit(after, b) <==> if b == bit then val else StatusBit(before, b))
  }

  /** The status bits that the commands 7 to 13 of the chip switch, for its clock 0 or 1. */
  function SwitchedBit(n: nat, sel: nat): (b: nat)
    requires sel < 2
    ensures b < 16
  {
    match n
    case 7 => 10
    case 8 => 11 + sel
    case 9 => 11 + sel
    case 10 => 8 + sel
    case 11 => 8 + sel
    case _ => 6 + sel
  }

  // ---------- the chip ----------

  class Chip {
    const status: array<Digit>
    const clock: seq<array<Digit>>
    const alarm: seq<array<Digit>>
    const intervalTimer: array<Digit>
    const itTerminalCount: array<Digit>

    /** Registers of the right width holding decimal digits, none shared. */
    ghost predicate Valid()
      reads this, status, clock, alarm, intervalTimer, itTerminalCount
    {
      && status.Length == STATUS_WIDTH && |clock| == 2 && |alarm| == 2 && clock[0] != clock[1]
      && (forall k :: 0 <= k < 2 ==> clock[k].Length == WSIZE && alarm[k].Length == WSIZE && alarm[k] !in clock)
      && (forall k :: 0 <= k < 2 ==> DigitsBelow(clock[k][..], 10) && DigitsBelow(alarm[k][..], 10))
      && intervalTimer.Length == INTERVAL_WIDTH && itTerminalCount.Length == INTERVAL_WIDTH
      && intervalTimer != itTerminalCount
      && DigitsBelow(intervalTimer[..], 10) && DigitsBelow(itTerminalCount[..], 10)
    }

    ghost function TimerState(sel: nat): (t: Timer)
      requires Valid() && sel < 2
      reads this, status, clock, alarm, intervalTimer, itTerminalCount
      ensures t.clock < CYCLE && t.alarm < CYCLE
    {
      FourteenDigits(clock[sel][..]);
      FourteenDigits(alarm[sel][..]);
      Timer(Value(clock[sel][..], 10), Value(alarm[sel][..], 10),
            StatusBit(status[..], PS_CKAEN + sel), StatusBit(status[..], PS_ALAEN + sel),
            StatusBit(status[..], PS_DTZA + 2 * sel), StatusBit(status[..], PS_ALMA + 2 * sel))
    }

    ghost function IntervalState(): (v: Interval)
      requires Valid()
      reads this, status, clock, alarm, intervalTimer, itTerminalCount
      ensures v.val < 100_000 && v.terminal < 100_000
    {
      FiveDigits(intervalTimer[..]);
      FiveDigits(itTerminalCount[..]);
      Interval(Value(intervalTimer[..], 10), Value(itTerminalCount[..], 10),
               StatusBit(status[..], PS_ITEN), StatusBit(status[..], PS_DTZIT))
    }

    method GetStatusBit(bit: nat) returns (val: bool)
      requires Valid() && bit < 16
      ensures val == StatusBit(status[..], bit)
    {
      val := DigitBit(status[bit / 4], bit % 4);
    }

    method SetStatusBit(bit: nat, val: bool)
      requires Valid() && bit < 16
      modifies status
      ensures Valid() && OneBitSet(old(status[..]), bit, val, status[..])
    {
      DigitBitSet(status[bit / 4], bit % 4, val);
      status[bit / 4] := WithDigitBit(status[bit / 4], bit % 4, val);
      SameBitIndex(bit);
    }

    /** phineas_increment_clock. */
    method IncrementClock(sel: nat, ticks: nat)
      requires Valid() && sel < 2 && ticks < UINT32
      modifies status, clock[sel]
      ensures Valid() && TimerState(sel) == Advance(old(TimerState(sel)), ticks)
      ensures forall b :: 0 <= b < 16 && b != PS_DTZA + 2 * sel && b != PS_ALMA + 2 * sel ==>
                (StatusBit(status[..], b) <==> StatusBit(old(status[..]), b))
    {
      hide Passes, Value, StatusBit, DigitsBelow;
      var running := GetStatusBit(PS_CKAEN + sel);
      if !running {
        return;
      }
      ghost var t := TimerState(sel);
      var oldVal, newVal, overflow := CountUp(sel, ticks);
      label counted:
      AlarmComparison(t.clock, ticks, t.alarm);
      var enabled := GetStatusBit(PS_ALAEN + sel);
      if !enabled {
        return;
      }
      Ring(sel, oldVal, newVal, overflow);
    }

    /** The clock half: count modulo 10^14 and note the wrap. */
    method CountUp(sel: nat, ticks: nat) returns (oldVal: nat, newVal: nat, overflow: bool)
      requires Valid() && sel < 2 && ticks < UINT32
      modifies status, clock[sel]
      ensures Valid() && oldVal == old(Value(clock[sel][..], 10)) && newVal == Value(clock[sel][..], 10)
      ensures overflow == (oldVal + ticks >= CYCLE)
      ensures newVal == (if overflow then oldVal + ticks - CYCLE else oldVal + ticks)
      ensures if overflow then OneBitSet(old(status[..]), PS_DTZA + 2 * sel, true, status[..])
              else status[..] == old(status[..])
    {
      hide Value, StatusBit, DigitsBelow;
      oldVal := Read(clock[sel]);
      newVal := oldVal + ticks;
      overflow := newVal > 99_999_999_999_999;
      if overflow {
        newVal := newVal - 100_000_000_000_000;
        SetStatusBit(PS_DTZA + 2 * sel, true);
      }
      Store(sel, newVal);
    }

    /** The alarm half. */
    method Ring(sel: nat, oldVal: nat, newVal: nat, overflow: bool)
      requires Valid() && sel < 2
      modifies status
      ensures Valid()
      ensures var alarmVal := Value(alarm[sel][..], 10);
              var alarmed := if overflow then alarmVal > oldVal || alarmVal <= newVal
                             else alarmVal > oldVal && alarmVal <= newVal;
              if alarmed then OneBitSet(old(status[..]), PS_ALMA + 2 * sel, true, status[..])
              else status[..] == old(status[..])
    {
      hide Value, StatusBit, DigitsBelow;
      var alarmVal := Read(alarm[sel]);
      var alarmed: bool;
      if overflow {
        alarmed := alarmVal > oldVal || alarmVal <= newVal;
      } else {
        alarmed := alarmVal > oldVal && alarmVal <= newVal;
      }
      if alarmed {
        SetStatusBit(PS_ALMA + 2 * sel, true);
      }
    }

    /** phineas_increment_interval_timer. */
    method IncrementIntervalTimer(ticks: nat)
      requires Valid() && ticks < UINT32
      modifies status, intervalTimer
      ensures Valid() && IntervalState() == TickInterval(old(IntervalState()), ticks)
      ensures forall b :: 0 <= b < 16 && b != PS_DTZIT ==> (StatusBit(status[..], b) <==> StatusBit(old(status[..]), b))
    {
      hide Value, StatusBit, DigitsBelow;
      var enabled := GetStatusBit(PS_ITEN);
      if !enabled {
        return;
      }
      var val := ReadFive(intervalTimer);
      var tc := ReadFive(itTerminalCount);
      val := (val + ticks) % UINT32;
      if val >= tc {
        val := 0;
        SetStatusBit(PS_DTZIT, true);
      }
      StoreInterval(val);
    }

    /** phineas_update: one tick for everything. Returns whether the chip requests service. */
    method Update() returns (request: bool)
      requires Valid()
      modifies status, clock[0], clock[1], intervalTimer
      ensures Valid()
      ensures TimerState(0) == Advance(old(TimerState(0)), 1)
      ensures TimerState(1) == Advance(old(TimerState(1)), 1)
      ensures IntervalState() == TickInterval(old(IntervalState()), 1)
      ensures request <==> !StatusBit(status[..], PS_PUS)
                           && (TimerState(0).alm || TimerState(0).dtz || TimerState(1).alm || TimerState(1).dtz
                               || IntervalState().dtz)
    {
      hide Value, StatusBit, DigitsBelow, Advance, TickInterval;
      IncrementClock(0, 1);
      IncrementClock(1, 1);
      IncrementIntervalTimer(1);
      request := UpdateExtFlags();
    }

    /** The service request of phineas_update_ext_flags. */
    method UpdateExtFlags() returns (request: bool)
      requires Valid()
      ensures request <==> !StatusBit(status[..], PS_PUS)
                           && (TimerState(0).alm || TimerState(0).dtz || TimerState(1).alm || TimerState(1).dtz
                               || IntervalState().dtz)
    {
      hide Value, StatusBit, DigitsBelow;
      var pus := GetStatusBit(PS_PUS);
      var almA := GetStatusBit(PS_ALMA);
      var dtzA := GetStatusBit(PS_DTZA);
      var almB := GetStatusBit(PS_ALMA + 2);
      var dtzB := GetStatusBit(PS_DTZA + 2);
      var dtzIt := GetStatusBit(PS_DTZIT);
      request := !pus && (almA || dtzA || almB || dtzB || dtzIt);
    }

    /** The status word of phineas_wr_n: a program can clear the flags in bits 0 to 5 and set none. Returns
        whether the chip still requests service. */
    method WriteStatus(c0: Digit, c1: Digit) returns (request: bool)
      requires Valid()
      modifies status
      ensures Valid()
      ensures forall b :: 0 <= b < 16 ==>
                (StatusBit(status[..], b)
                 <==> StatusBit(old(status[..]), b) && (b < 6 ==> DigitBit(if b < 4 then c0 else c1, b % 4)))
      ensures request <==> !StatusBit(status[..], 5)
                           && (|| StatusBit(status[..], 0) || StatusBit(status[..], 1) || StatusBit(status[..], 2)
                               || StatusBit(status[..], 3) || StatusBit(status[..], 4))
    {
      hide StatusBit, DigitsBelow, Value, DigitBit;
      ClearClockFlags(c0);
      if !DigitBit(c1, 0) {
        SetStatusBit(PS_DTZIT, false);
      }
      if !DigitBit(c1, 1) {
        SetStatusBit(PS_PUS, false);
      }
      request := UpdateExtFlags();
    }

    method ClearClockFlags(c0: Digit)
      requires Valid()
      modifies status
      ensures Valid()
      ensures forall b :: 0 <= b < 16 ==>
                (StatusBit(status[..], b) <==> StatusBit(old(status[..]), b) && (b < 4 ==> DigitBit(c0, b)))
    {
      hide StatusBit, DigitsBelow, Value, DigitBit;
      if !DigitBit(c0, 0) {
        SetStatusBit(PS_ALMA, false);
      }
      if !DigitBit(c0, 1) {
        SetStatusBit(PS_DTZA, false);
      }
      if !DigitBit(c0, 2) {
        SetStatusBit(PS_ALMA + 2, false);
      }
      if !DigitBit(c0, 3) {
        SetStatusBit(PS_DTZA + 2, false);
      }
    }

    /** The commands 7 to 13 of phineas_wr_n: odd ones set their bit, even ones clear it, but for the command
        that stops the interval timer. */
    method SwitchStatus(n: nat, sel: nat)
      requires Valid() && 7 <= n <= 13 && sel < 2
      modifies status
      ensures Valid() && OneBitSet(old(status[..]), SwitchedBit(n, sel), n == 9 || n == 11 || n == 13, status[..])
      ensures TimerState(sel).running <==> if n >= 12 then n == 13 else old(TimerState(sel)).running
      ensures TimerState(sel).alarmEnabled
              <==> if n == 10 || n == 11 then n == 11 else old(TimerState(sel)).alarmEnabled
      ensures IntervalState().enabled <==> n != 7 && old(IntervalState()).enabled
      ensures TimerState(1 - sel) == old(TimerState(1 - sel))
    {
      hide StatusBit, DigitsBelow, Value;
      if n == 7 {
        SetStatusBit(PS_ITEN, false);
      } else if n == 8 {
        SetStatusBit(PS_TESTA + sel, false);
      } else if n == 9 {
        SetStatusBit(PS_TESTA + sel, true);
      } else if n == 10 {
        SetStatusBit(PS_ALAEN + sel, false);
      } else if n == 11 {
        SetStatusBit(PS_ALAEN + sel, true);
      } else if n == 12 {
        SetStatusBit(PS_CKAEN + sel, false);
      } else {
        SetStatusBit(PS_CKAEN + sel, true);
      }
    }

    method ReadFive(reg: array<Digit>) returns (val: nat)
      requires reg.Length == INTERVAL_WIDTH && DigitsBelow(reg[..], 10)
      ensures val == Value(reg[..], 10) < 100_000
    {
      val := BcdRegToBinary(reg, INTERVAL_WIDTH);
      assert reg[..INTERVAL_WIDTH] == reg[..];
      FiveDigits(reg[..]);
    }

    method StoreInterval(val: nat)
      requires Valid() && val < 100_000
      modifies intervalTimer
      ensures Valid() && Value(intervalTimer[..], 10) == val
    {
      BinaryToBcdReg(val, intervalTimer, INTERVAL_WIDTH);
      assert intervalTimer[..] == Digits(val, INTERVAL_WIDTH, 10);
      ValueOfDigits(val, INTERVAL_WIDTH, 10);
      PowersOfTen();
    }

    method Read(reg: array<Digit>) returns (val: nat)
      requires reg.Length == WSIZE && DigitsBelow(reg[..], 10)
      ensures val == Value(reg[..], 10) < CYCLE
    {
      val := BcdRegToBinary(reg, WSIZE);
      assert reg[..WSIZE] == reg[..];
      FourteenDigits(reg[..]);
    }

    method Store(sel: nat, val: nat)
      requires Valid() && sel < 2 && val < CYCLE
      modifies clock[sel]
      ensures Valid() && Value(clock[sel][..], 10) == val
    {
      BinaryToBcdReg(val, clock[sel], WSIZE);
      assert clock[sel][..] == Digits(val, WSIZE, 10);
      FourteenDigitValue(val);
    }
  }

  lemma PowersOfTen()
    ensures Pow(10, 5) == 100_000 && Pow(10, WSIZE) == CYCLE
  {
    assert Pow(10, 4) == 10_000;
    assert Pow(10, 8) == 100_000_000;
    assert Pow(10, 12) == 1_000_000_000_000;
  }

  lemma FourteenDigits(s: seq<Digit>)
    requires |s| == WSIZE && DigitsBelow(s, 10)
    ensures Value(s, 10) < CYCLE
  {
    ValueBound(s, 10);
    PowersOfTen();
  }

  lemma FiveDigits(s: seq<Digit>)
    requires |s| == INTERVAL_WIDTH && DigitsBelow(s, 10)
    ensures Value(s, 10) < 100_000
  {
    ValueBound(s, 10);
    PowersOfTen();
  }

  lemma FourteenDigitValue(n: nat)
    requires n < CYCLE
    ensures Value(Digits(n, WSIZE, 10), 10) == n
  {
    ValueOfDigits(n, WSIZE, 10);
    PowersOfTen();
  }

  lemma SameBitIndex(bit: nat)
    ensures forall b :: b / 4 == bit / 4 && b % 4 == bit % 4 <==> b == bit
  {
  }
}
