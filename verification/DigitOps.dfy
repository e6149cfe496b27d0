/** The digit-serial register operations of src/digit_ops.c, and what they mean as arithmetic on the
    numbers that fields of a register denote. Digit 0 is the least significant. */
module DigitOps {
  import opened Numbers

  type Digit = d: int | 0 <= d < 16

  predicate ArithmeticBase(base: nat) {
    base == 10 || base == 16
  }

  // ---------- fields ----------

  /** The digits first..last of a register; none when first > last. */
  function Field(s: seq<Digit>, first: nat, last: nat): (f: seq<Digit>)
    requires first <= last ==> last < |s|
    ensures |f| == FieldLength(first, last)
  {
    if first <= last then s[first..last + 1] else []
  }

  function FieldLength(first: nat, last: nat): nat {
    if first <= last then last - first + 1 else 0
  }

  /** A register with its digits first..last replaced. */
  function WithField(s: seq<Digit>, first: nat, last: nat, f: seq<Digit>): (r: seq<Digit>)
    requires first <= last ==> last < |s|
    requires |f| == FieldLength(first, last)
    ensures |r| == |s|
    ensures Field(r, first, last) == f
    ensures forall i :: 0 <= i < |s| && !(first <= i <= last) ==> r[i] == s[i]
  {
    if first <= last then s[..first] + f + s[last + 1..] else s
  }

  lemma WithFieldUnique(s: seq<Digit>, first: nat, last: nat, f: seq<Digit>, r: seq<Digit>)
    requires first <= last ==> last < |s|
    requires |f| == FieldLength(first, last) && |r| == |s|
    requires forall i :: 0 <= i < |f| ==> r[first + i] == f[i]
    requires forall i :: 0 <= i < |s| && !(first <= i <= last) ==> r[i] == s[i]
    ensures r == WithField(s, first, last, f)
  {
    var w := WithField(s, first, last, f);
    forall i | 0 <= i < |s|
      ensures r[i] == w[i]
    {
      if first <= i <= last {
        assert r[first + (i - first)] == f[i - first];
      }
    }
  }

  // ---------- numbers ----------

  /** The number the digits denote. */
  function Value(s: seq<Digit>, base: nat): nat
    requires ArithmeticBase(base)
  {
    if |s| == 0 then 0 else if base == 10 then s[0] + 10 * Value(s[1..], 10) else s[0] + 16 * Value(s[1..], 16)
  }

  function Pow(base: nat, n: nat): (p: nat)
    requires ArithmeticBase(base)
    ensures p >= 1
  {
    if n == 0 then 1 else if base == 10 then 10 * Pow(10, n - 1) else 16 * Pow(16, n - 1)
  }

  ghost predicate DigitsBelow(s: seq<Digit>, base: nat) {
    forall i :: 0 <= i < |s| ==> s[i] < base
  }

  function Bit(b: bool): nat {
    if b then 1 else 0
  }

  lemma {:induction false} ValueBound(s: seq<Digit>, base: nat)
    requires ArithmeticBase(base) && DigitsBelow(s, base)
    ensures Value(s, base) < Pow(base, |s|)
  {
    if |s| > 0 {
      ValueBound(s[1..], base);
    }
  }

  // ---------- one digit ----------

  /** What the code computes for one digit, nibbles outside the base included. */
  function AddDigit(x: Digit, y: Digit, carry: bool, base: nat): (Digit, bool) {
    var s := x + y + Bit(carry);
    if base == 10 && s > 9 then ((s + 6) % 16, true) else (s % 16, s > 15)
  }

  function SubDigit(x: Digit, y: Digit, borrow: bool, base: nat): (Digit, bool) {
    var s := x + (15 - y) + 1 - Bit(borrow);
    if base == 10 && s <= 15 then ((s + 10) % 16, true) else (s % 16, s <= 15)
  }

  lemma AddDigitValue(x: Digit, y: Digit, carry: bool, base: nat)
    requires ArithmeticBase(base) && x < base && y < base
    ensures var (d, c) := AddDigit(x, y, carry, base);
            d < base && d + (if c then base else 0) == x + y + Bit(carry)
  {
  }

  lemma SubDigitValue(x: Digit, y: Digit, borrow: bool, base: nat)
    requires ArithmeticBase(base) && x < base && y < base
    ensures var (d, b) := SubDigit(x, y, borrow, base);
            d < base && d == x - y - Bit(borrow) + (if b then base else 0)
  {
  }

  /** digit_add_sub: one adder for both operations; the carry is complemented around a subtraction. */
  method DigitAddSub(sub: bool, x: Digit, y0: Digit, carry0: bool, base: nat) returns (d: Digit, carry: bool)
    ensures (d, carry) == if sub then SubDigit(x, y0, carry0, base) else AddDigit(x, y0, carry0, base)
  {
    carry := carry0 != sub;
    var y: int := y0;
    if sub {
      y := 15 - y;
    }
    var s := x + y + Bit(carry);
    carry := s > 15;
    if base == 10 {
      if sub {
        if !carry {
          s := s + 10;
        }
      } else {
        carry := carry || s > 9;
        if carry {
          s := s + 6;
        }
      }
    }
    carry := carry != sub;
    d := s % 16;
  }

  // ---------- a field ----------

  function AddDigits(xs: seq<Digit>, ys: seq<Digit>, carry: bool, base: nat): (r: (seq<Digit>, bool))
    requires |xs| == |ys|
    ensures |r.0| == |xs|
  {
    if |xs| == 0 then ([], carry)
    else
      var (d, c) := AddDigit(xs[0], ys[0], carry, base);
      var (rest, out) := AddDigits(xs[1..], ys[1..], c, base);
      ([d] + rest, out)
  }

  function SubDigits(xs: seq<Digit>, ys: seq<Digit>, borrow: bool, base: nat): (r: (seq<Digit>, bool))
    requires |xs| == |ys|
    ensures |r.0| == |xs|
  {
    if |xs| == 0 then ([], borrow)
    else
      var (d, b) := SubDigit(xs[0], ys[0], borrow, base);
      var (rest, out) := SubDigits(xs[1..], ys[1..], b, base);
      ([d] + rest, out)
  }

  /** The borrow of decrementing n digits of a cleared register. */
  predicate ZeroBorrow(n: nat, base: nat) {
    SubDigits(Zeros(n), Zeros(n), true, base).1
  }

  lemma {:induction false} ZeroBorrows(n: nat, base: nat)
    requires ArithmeticBase(base)
    ensures ZeroBorrow(n, base)
  {
    if n > 0 {
      assert Zeros(n)[1..] == Zeros(n - 1);
      ZeroBorrows(n - 1, base);
    }
  }

  /** The serial adder adds: digits in range stay in range, and the digits with the carry out denote
      the sum of the operands and the carry in. */
  lemma {:induction false} AddDigitsValue(xs: seq<Digit>, ys: seq<Digit>, carry: bool, base: nat)
    requires |xs| == |ys| && ArithmeticBase(base) && DigitsBelow(xs, base) && DigitsBelow(ys, base)
    ensures var (r, out) := AddDigits(xs, ys, carry, base);
            && DigitsBelow(r, base)
            && Value(r, base) + (if out then Pow(base, |xs|) else 0) == Value(xs, base) + Value(ys, base) + Bit(carry)
  {
    if |xs| > 0 {
      hide AddDigit;
      var (d, c) := AddDigit(xs[0], ys[0], carry, base);
      AddDigitValue(xs[0], ys[0], carry, base);
      AddDigitsValue(xs[1..], ys[1..], c, base);
      var (rest, out) := AddDigits(xs[1..], ys[1..], c, base);
      assert ([d] + rest)[1..] == rest;
    }
  }

  /** The serial subtracter subtracts, and its borrow out says that the difference is negative. */
  lemma {:induction false} SubDigitsValue(xs: seq<Digit>, ys: seq<Digit>, borrow: bool, base: nat)
    requires |xs| == |ys| && ArithmeticBase(base) && DigitsBelow(xs, base) && DigitsBelow(ys, base)
    ensures var (r, out) := SubDigits(xs, ys, borrow, base);
            && DigitsBelow(r, base)
            && Value(r, base) == Value(xs, base) - Value(ys, base) - Bit(borrow) + (if out then Pow(base, |xs|) else 0)
            && (out <==> Value(xs, base) < Value(ys, base) + Bit(borrow))
  {
    if |xs| > 0 {
      hide SubDigit;
      var (d, b) := SubDigit(xs[0], ys[0], borrow, base);
      SubDigitValue(xs[0], ys[0], borrow, base);
      SubDigitsValue(xs[1..], ys[1..], b, base);
      var (rest, out) := SubDigits(xs[1..], ys[1..], b, base);
      assert ([d] + rest)[1..] == rest;
      ValueBound([d] + rest, base);
    }
  }

  /** Subtracting what was added gives the number back: the two serial loops are inverse, carry for borrow. */
  lemma SubUndoesAdd(xs: seq<Digit>, ys: seq<Digit>, carry: bool, base: nat)
    requires |xs| == |ys| && ArithmeticBase(base) && DigitsBelow(xs, base) && DigitsBelow(ys, base)
    ensures var (r, out) := AddDigits(xs, ys, carry, base);
            SubDigits(r, ys, carry, base) == (xs, out)
  {
    var (r, out) := AddDigits(xs, ys, carry, base);
    AddDigitsValue(xs, ys, carry, base);
    SubDigitsValue(r, ys, carry, base);
    var (back, borrow) := SubDigits(r, ys, carry, base);
    ValueBound(back, base);
    ValueBound(xs, base);
    ValueInjective(back, xs, base);
  }

  lemma {:induction false} ValueInjective(a: seq<Digit>, b: seq<Digit>, base: nat)
    requires |a| == |b| && ArithmeticBase(base) && DigitsBelow(a, base) && DigitsBelow(b, base)
    requires Value(a, base) == Value(b, base)
    ensures a == b
  {
    if |a| > 0 {
      assert a[0] == b[0];
      ValueInjective(a[1..], b[1..], base);
      assert a == [a[0]] + a[1..] && b == [b[0]] + b[1..];
    }
  }

  // ---------- the in-place loops ----------

  /** A null source stands for zero. */
  ghost function Operand(src: array?<Digit>, first: nat, last: nat): (f: seq<Digit>)
    requires src != null && first <= last ==> last < src.Length
    reads src
    ensures |f| == FieldLength(first, last)
  {
    if src == null then Zeros(FieldLength(first, last)) else Field(src[..], first, last)
  }

  /** After k digits of the field: what is left of the result is the result on what is left. */
  ghost predicate Adding(xs: seq<Digit>, ys: seq<Digit>, k: nat, carry: bool, base: nat, r: seq<Digit>, out: bool)
    requires |xs| == |ys| == |r| && k <= |xs|
  {
    AddDigits(xs[k..], ys[k..], carry, base) == (r[k..], out)
  }

  ghost predicate Subtracting(xs: seq<Digit>, ys: seq<Digit>, k: nat, borrow: bool, base: nat, r: seq<Digit>, out: bool)
    requires |xs| == |ys| == |r| && k <= |xs|
  {
    SubDigits(xs[k..], ys[k..], borrow, base) == (r[k..], out)
  }

  lemma AddEnd(xs: seq<Digit>, ys: seq<Digit>, carry: bool, base: nat, r: seq<Digit>, out: bool)
    requires |xs| == |ys| == |r| && Adding(xs, ys, |xs|, carry, base, r, out)
    ensures carry == out
  {
  }

  lemma SubEnd(xs: seq<Digit>, ys: seq<Digit>, borrow: bool, base: nat, r: seq<Digit>, out: bool)
    requires |xs| == |ys| == |r| && Subtracting(xs, ys, |xs|, borrow, base, r, out)
    ensures borrow == out
  {
  }

  lemma AddStep(xs: seq<Digit>, ys: seq<Digit>, k: nat, carry: bool, base: nat, r: seq<Digit>, out: bool)
    requires |xs| == |ys| == |r| && k < |xs| && Adding(xs, ys, k, carry, base, r, out)
    ensures var (d, c) := AddDigit(xs[k], ys[k], carry, base);
            d == r[k] && Adding(xs, ys, k + 1, c, base, r, out)
  {
    assert xs[k..][1..] == xs[k + 1..] && ys[k..][1..] == ys[k + 1..] && r[k..][1..] == r[k + 1..];
    assert r[k..][0] == r[k];
  }

  lemma SubStep(xs: seq<Digit>, ys: seq<Digit>, k: nat, borrow: bool, base: nat, r: seq<Digit>, out: bool)
    requires |xs| == |ys| == |r| && k < |xs| && Subtracting(xs, ys, k, borrow, base, r, out)
    ensures var (d, b) := SubDigit(xs[k], ys[k], borrow, base);
            d == r[k] && Subtracting(xs, ys, k + 1, b, base, r, out)
  {
    assert xs[k..][1..] == xs[k + 1..] && ys[k..][1..] == ys[k + 1..] && r[k..][1..] == r[k + 1..];
    assert r[k..][0] == r[k];
  }

  /** The digits first.. of src are xs from index k on. */
  ghost predicate Reads(src: array?<Digit>, first: nat, xs: seq<Digit>, k: nat)
    reads src
  {
    if src == null then forall m :: k <= m < |xs| ==> xs[m] == 0
    else first + |xs| <= src.Length && forall m :: k <= m < |xs| ==> xs[m] == src[first + m]
  }

  lemma ReadsNext(src: array?<Digit>, first: nat, xs: seq<Digit>, k: nat)
    requires Reads(src, first, xs, k) && k < |xs|
    ensures src != null ==> first + k < src.Length
    ensures (if src == null then 0 else src[first + k]) == xs[k]
  {
  }

  /** reg_add. The destination may be one of the sources. */
  method RegAdd(dest: array<Digit>, src1: array<Digit>, src2: array?<Digit>, first: nat, last: nat, carry0: bool,
                base: nat)
    returns (carry: bool)
    requires first <= last ==> last < dest.Length && last < src1.Length && (src2 != null ==> last < src2.Length)
    modifies dest
    ensures var (r, out) := old(AddDigits(Operand(src1, first, last), Operand(src2, first, last), carry0, base));
            dest[..] == WithField(old(dest[..]), first, last, r) && carry == out
  {
    hide AddDigits, WithField;
    ghost var xs, ys := Operand(src1, first, last), Operand(src2, first, last);
    if first > last {
      carry := carry0;
      AddNothing(carry0, base);
      WithFieldUnique(old(dest[..]), first, last, [], dest[..]);
    } else {
      carry := AddLoop(dest, src1, src2, first, last, carry0, base, xs, ys);
      WithFieldUnique(old(dest[..]), first, last, AddDigits(xs, ys, carry0, base).0, dest[..]);
    }
  }

  lemma AddNothing(carry: bool, base: nat)
    ensures AddDigits([], [], carry, base) == ([], carry) && SubDigits([], [], carry, base) == ([], carry)
  {
  }

  /** One turn of the loop, on digit i. */
  method AddAt(dest: array<Digit>, src1: array<Digit>, src2: array?<Digit>, first: nat, i: nat, carry0: bool, base: nat,
               ghost xs: seq<Digit>, ghost ys: seq<Digit>)
    returns (carry: bool)
    requires |xs| == |ys| && first <= i < first + |xs| <= dest.Length
    requires Reads(src1, first, xs, i - first) && Reads(src2, first, ys, i - first)
    modifies dest
    ensures Reads(src1, first, xs, i - first + 1) && Reads(src2, first, ys, i - first + 1)
    ensures (dest[i], carry) == AddDigit(xs[i - first], ys[i - first], carry0, base)
    ensures forall m :: 0 <= m < dest.Length && m != i ==> dest[m] == old(dest[m])
  {
    hide AddDigit;
    ReadsNext(src1, first, xs, i - first);
    ReadsNext(src2, first, ys, i - first);
    var s2 := if src2 != null then src2[i] else 0;
    var d;
    d, carry := DigitAddSub(false, src1[i], s2, carry0, base);
    dest[i] := d;
  }

  method AddLoop(dest: array<Digit>, src1: array<Digit>, src2: array?<Digit>, first: nat, last: nat, carry0: bool,
                 base: nat, ghost xs: seq<Digit>, ghost ys: seq<Digit>)
    returns (carry: bool)
    requires first <= last < dest.Length && |xs| == |ys| == last - first + 1
    requires Reads(src1, first, xs, 0) && Reads(src2, first, ys, 0)
    modifies dest
    ensures carry == AddDigits(xs, ys, carry0, base).1
    ensures forall m :: 0 <= m < |xs| ==> dest[first + m] == AddDigits(xs, ys, carry0, base).0[m]
    ensures forall m :: 0 <= m < dest.Length && !(first <= m <= last) ==> dest[m] == old(dest[m])
  {
    ghost var (r, out) := AddDigits(xs, ys, carry0, base);
    assert Adding(xs, ys, 0, carry0, base, r, out) by {
      assert xs[0..] == xs && ys[0..] == ys && r[0..] == r;
    }
    hide AddDigits, Adding, AddDigit, Reads;
    carry := carry0;
    for i := first to last + 1
      invariant forall m :: 0 <= m < dest.Length && !(first <= m < i) ==> dest[m] == old(dest[m])
      invariant forall m :: 0 <= m < i - first ==> dest[first + m] == r[m]
      invariant Reads(src1, first, xs, i - first) && Reads(src2, first, ys, i - first)
      invariant Adding(xs, ys, i - first, carry, base, r, out)
    {
      AddStep(xs, ys, i - first, carry, base, r, out);
      carry := AddAt(dest, src1, src2, first, i, carry, base, xs, ys);
    }
    AddEnd(xs, ys, carry, base, r, out);
  }

  /** reg_sub. Without a destination it only compares. */
  method RegSub(dest: array?<Digit>, src1: array?<Digit>, src2: array?<Digit>, first: nat, last: nat, carry0: bool,
                base: nat)
    returns (carry: bool)
    requires first <= last ==> (dest != null ==> last < dest.Length) && (src1 != null ==> last < src1.Length)
                               && (src2 != null ==> last < src2.Length)
    modifies dest
    ensures var (r, out) := old(SubDigits(Operand(src1, first, last), Operand(src2, first, last), carry0, base));
            (dest != null ==> dest[..] == WithField(old(dest[..]), first, last, r)) && carry == out
  {
    hide SubDigits, WithField;
    ghost var xs, ys := Operand(src1, first, last), Operand(src2, first, last);
    if first > last {
      carry := carry0;
      AddNothing(carry0, base);
      if dest != null {
        WithFieldUnique(old(dest[..]), first, last, [], dest[..]);
      }
    } else {
      carry := SubLoop(dest, src1, src2, first, last, carry0, base, xs, ys);
      if dest != null {
        WithFieldUnique(old(dest[..]), first, last, SubDigits(xs, ys, carry0, base).0, dest[..]);
      }
    }
  }

  method SubAt(dest: array?<Digit>, src1: array?<Digit>, src2: array?<Digit>, first: nat, i: nat, carry0: bool,
               base: nat, ghost xs: seq<Digit>, ghost ys: seq<Digit>)
    returns (carry: bool)
    requires |xs| == |ys| && first <= i < first + |xs| && (dest != null ==> i < dest.Length)
    requires Reads(src1, first, xs, i - first) && Reads(src2, first, ys, i - first)
    modifies dest
    ensures Reads(src1, first, xs, i - first + 1) && Reads(src2, first, ys, i - first + 1)
    ensures var (d, b) := SubDigit(xs[i - first], ys[i - first], carry0, base);
            (dest != null ==> dest[i] == d) && carry == b
    ensures dest != null ==> forall m :: 0 <= m < dest.Length && m != i ==> dest[m] == old(dest[m])
  {
    hide SubDigit;
    ReadsNext(src1, first, xs, i - first);
    ReadsNext(src2, first, ys, i - first);
    var s1 := if src1 != null then src1[i] else 0;
    var s2 := if src2 != null then src2[i] else 0;
    var d;
    d, carry := DigitAddSub(true, s1, s2, carry0, base);
    if dest != null {
      dest[i] := d;
    }
  }

  method SubLoop(dest: array?<Digit>, src1: array?<Digit>, src2: array?<Digit>, first: nat, last: nat, carry0: bool,
                 base: nat, ghost xs: seq<Digit>, ghost ys: seq<Digit>)
    returns (carry: bool)
    requires first <= last && |xs| == |ys| == last - first + 1 && (dest != null ==> last < dest.Length)
    requires Reads(src1, first, xs, 0) && Reads(src2, first, ys, 0)
    modifies dest
    ensures carry == SubDigits(xs, ys, carry0, base).1
    ensures dest != null ==> forall m :: 0 <= m < |xs| ==> dest[first + m] == SubDigits(xs, ys, carry0, base).0[m]
    ensures dest != null ==> forall m :: 0 <= m < dest.Length && !(first <= m <= last) ==> dest[m] == old(dest[m])
  {
    ghost var (r, out) := SubDigits(xs, ys, carry0, base);
    assert Subtracting(xs, ys, 0, carry0, base, r, out) by {
      assert xs[0..] == xs && ys[0..] == ys && r[0..] == r;
    }
    hide SubDigits, Subtracting, SubDigit, Reads;
    carry := carry0;
    for i := first to last + 1
      invariant dest != null ==> forall m :: 0 <= m < dest.Length && !(first <= m < i) ==> dest[m] == old(dest[m])
      invariant dest != null ==> forall m :: 0 <= m < i - first ==> dest[first + m] == r[m]
      invariant Reads(src1, first, xs, i - first) && Reads(src2, first, ys, i - first)
      invariant Subtracting(xs, ys, i - first, carry, base, r, out)
    {
      SubStep(xs, ys, i - first, carry, base, r, out);
      carry := SubAt(dest, src1, src2, first, i, carry, base, xs, ys);
    }
    SubEnd(xs, ys, carry, base, r, out);
  }

  function Zeros(n: nat): (f: seq<Digit>)
    ensures |f| == n
  {
    seq(n, _ => 0)
  }

  /** reg_zero. */
  method RegZero(dest: array<Digit>, first: nat, last: nat)
    requires first <= last ==> last < dest.Length
    modifies dest
    ensures dest[..] == WithField(old(dest[..]), first, last, Zeros(FieldLength(first, last)))
  {
    var i := first;
    while i <= last
      invariant first <= i && (first <= last ==> i <= last + 1) && (first > last ==> i == first)
      invariant forall m :: first <= m < i ==> dest[m] == 0
      invariant forall m :: 0 <= m < dest.Length && !(first <= m < i) ==> dest[m] == old(dest[m])
    {
      dest[i] := 0;
      i := i + 1;
    }
    WithFieldUnique(old(dest[..]), first, last, Zeros(FieldLength(first, last)), dest[..]);
  }

  /** reg_copy. */
  method RegCopy(dest: array<Digit>, src: array<Digit>, first: nat, last: nat)
    requires first <= last ==> last < dest.Length && last < src.Length
    modifies dest
    ensures dest[..] == WithField(old(dest[..]), first, last, old(Field(src[..], first, last)))
  {
    var i := first;
    while i <= last
      invariant first <= i && (first <= last ==> i <= last + 1) && (first > last ==> i == first)
      invariant forall m :: first <= m < i ==> dest[m] == old(src[m])
      invariant forall m :: 0 <= m < dest.Length && !(first <= m < i) ==> dest[m] == old(dest[m])
    {
      dest[i] := src[i];
      i := i + 1;
    }
    WithFieldUnique(old(dest[..]), first, last, old(Field(src[..], first, last)), dest[..]);
  }

  /** reg_exch. */
  method RegExch(dest: array<Digit>, src: array<Digit>, first: nat, last: nat)
    requires first <= last ==> last < dest.Length && last < src.Length
    modifies dest, src
    ensures dest[..] == WithField(old(dest[..]), first, last, old(Field(src[..], first, last)))
    ensures src[..] == WithField(old(src[..]), first, last, old(Field(dest[..], first, last)))
  {
    var i := first;
    while i <= last
      invariant first <= i && (first <= last ==> i <= last + 1) && (first > last ==> i == first)
      invariant forall m :: first <= m < i ==> dest[m] == old(src[m]) && src[m] == old(dest[m])
      invariant forall m :: 0 <= m < dest.Length && !(first <= m < i) ==> dest[m] == old(dest[m])
      invariant forall m :: 0 <= m < src.Length && !(first <= m < i) ==> src[m] == old(src[m])
    {
      var t := dest[i];
      dest[i] := src[i];
      src[i] := t;
      i := i + 1;
    }
    WithFieldUnique(old(dest[..]), first, last, old(Field(src[..], first, last)), dest[..]);
    WithFieldUnique(old(src[..]), first, last, old(Field(dest[..], first, last)), src[..]);
  }

  lemma PrefixesAgree(xs: seq<Digit>, ys: seq<Digit>, k: nat)
    requires k < |xs| == |ys|
    ensures xs[..k + 1] == ys[..k + 1] <==> xs[..k] == ys[..k] && xs[k] == ys[k]
  {
    assert xs[..k + 1] == xs[..k] + [xs[k]] && ys[..k + 1] == ys[..k] + [ys[k]];
  }

  /** reg_test_equal: carry says that the two fields are the same. */
  method RegTestEqual(src1: array<Digit>, src2: array?<Digit>, first: nat, last: nat) returns (carry: bool)
    requires first <= last ==> last < src1.Length && (src2 != null ==> last < src2.Length)
    ensures carry <==> Field(src1[..], first, last) == Operand(src2, first, last)
  {
    ghost var xs, ys := Field(src1[..], first, last), Operand(src2, first, last);
    carry := true;
    var i := first;
    while i <= last
      invariant first <= i && i - first <= |xs|
      invariant carry <==> xs[..i - first] == ys[..i - first]
    {
      var s2 := if src2 != null then src2[i] else 0;
      ghost var k := i - first;
      assert src1[i] == xs[k] && s2 == ys[k];
      PrefixesAgree(xs, ys, k);
      carry := carry && src1[i] == s2;
      i := i + 1;
    }
    assert xs[..|xs|] == xs && ys[..|ys|] == ys;
  }

  /** reg_test_nonequal. */
  method RegTestNonequal(src1: array<Digit>, src2: array?<Digit>, first: nat, last: nat) returns (carry: bool)
    requires first <= last ==> last < src1.Length && (src2 != null ==> last < src2.Length)
    ensures carry <==> Field(src1[..], first, last) != Operand(src2, first, last)
  {
    ghost var xs, ys := Field(src1[..], first, last), Operand(src2, first, last);
    carry := false;
    var i := first;
    while i <= last
      invariant first <= i && i - first <= |xs|
      invariant carry <==> xs[..i - first] != ys[..i - first]
    {
      var s2 := if src2 != null then src2[i] else 0;
      ghost var k := i - first;
      assert src1[i] == xs[k] && s2 == ys[k];
      PrefixesAgree(xs, ys, k);
      carry := carry || src1[i] != s2;
      i := i + 1;
    }
    assert xs[..|xs|] == xs && ys[..|ys|] == ys;
  }

  function ShiftedRight(f: seq<Digit>): (r: seq<Digit>)
    ensures |r| == |f|
  {
    if |f| == 0 then [] else f[1..] + [0]
  }

  function ShiftedLeft(f: seq<Digit>): (r: seq<Digit>)
    ensures |r| == |f|
  {
    if |f| == 0 then [] else [0] + f[..|f| - 1]
  }

  /** reg_shift_right. */
  method RegShiftRight(reg: array<Digit>, first: nat, last: nat)
    requires first <= last ==> last < reg.Length
    modifies reg
    ensures reg[..] == WithField(old(reg[..]), first, last, ShiftedRight(old(Field(reg[..], first, last))))
  {
    var i := first;
    while i <= last
      invariant first <= i && (first <= last ==> i <= last + 1) && (first > last ==> i == first)
      invariant forall m :: first <= m < i ==> reg[m] == if m == last then 0 else old(reg[m + 1])
      invariant forall m :: 0 <= m < reg.Length && !(first <= m < i) ==> reg[m] == old(reg[m])
    {
      reg[i] := if i == last then 0 else reg[i + 1];
      i := i + 1;
    }
    WithFieldUnique(old(reg[..]), first, last, ShiftedRight(old(Field(reg[..], first, last))), reg[..]);
  }

  /** reg_shift_left: from the top digit down. */
  method RegShiftLeft(reg: array<Digit>, first: nat, last: nat)
    requires first <= last ==> last < reg.Length
    modifies reg
    ensures reg[..] == WithField(old(reg[..]), first, last, ShiftedLeft(old(Field(reg[..], first, last))))
  {
    var i: int := last;
    while i >= first
      invariant i <= last && (first <= last ==> i >= first - 1)
      invariant forall m :: i < m <= last && first <= m ==> reg[m] == if m == first then 0 else old(reg[m - 1])
      invariant forall m :: 0 <= m < reg.Length && !(i < m <= last && first <= m) ==> reg[m] == old(reg[m])
    {
      reg[i] := if i == first then 0 else reg[i - 1];
      i := i - 1;
    }
    WithFieldUnique(old(reg[..]), first, last, ShiftedLeft(old(Field(reg[..], first, last))), reg[..]);
  }

  /** A right shift drops the low digit: it divides by the base. */
  lemma ShiftRightValue(f: seq<Digit>, base: nat)
    requires |f| > 0 && ArithmeticBase(base) && DigitsBelow(f, base)
    ensures Value(ShiftedRight(f), base) == Value(f, base) / base
  {
    ValueSnoc(f[1..], 0, base);
    assert Value(f, base) == Value(f[1..], base) * base + f[0];
    DivModUnique(Value(f, base), base, Value(f[1..], base), f[0]);
  }

  /** A left shift drops the high digit: it multiplies by the base, modulo what the field can hold. */
  lemma ShiftLeftValue(f: seq<Digit>, base: nat)
    requires |f| > 0 && ArithmeticBase(base) && DigitsBelow(f, base)
    ensures Value(ShiftedLeft(f), base) == Value(f, base) * base % Pow(base, |f|)
  {
    var n := |f| - 1;
    var low, top, q := f[..n], f[n], Pow(base, n);
    assert f == low + [top];
    ValueSnoc(low, top, base);
    ValueBound(low, base);
    var v := Value(low, base);
    assert Value([0] + low, base) == base * v by {
      assert ([0] + low)[1..] == low;
    }
    ShiftArithmetic(v, top, q, base);
  }

  lemma ShiftArithmetic(v: nat, top: nat, q: nat, base: nat)
    requires ArithmeticBase(base) && v < q
    ensures (v + top * q) * base % (base * q) == base * v
  {
    if base == 10 {
      DivModUnique((v + top * q) * 10, 10 * q, top, 10 * v);
    } else {
      DivModUnique((v + top * q) * 16, 16 * q, top, 16 * v);
    }
  }

  lemma {:induction false} ValueSnoc(s: seq<Digit>, d: Digit, base: nat)
    requires ArithmeticBase(base)
    ensures Value(s + [d], base) == Value(s, base) + d * Pow(base, |s|)
  {
    if |s| == 0 {
      assert (s + [d])[1..] == [];
    } else {
      ValueSnoc(s[1..], d, base);
      assert (s + [d])[1..] == s[1..] + [d];
      TimesCommute(d, base, Pow(base, |s| - 1));
      assert d * Pow(base, |s|) == base * (d * Pow(base, |s| - 1));
    }
  }

  // ---------- conversion to and from native integers ----------

  const UINT64 := 0x1_0000_0000_0000_0000

  function Digits(val: nat, n: nat, base: nat): (s: seq<Digit>)
    requires ArithmeticBase(base)
    ensures |s| == n && DigitsBelow(s, base)
  {
    if n == 0 then []
    else if base == 10 then [val % 10] + Digits(val / 10, n - 1, 10)
    else [val % 16] + Digits(val / 16, n - 1, 16)
  }

  /** Converting a number to n digits keeps it modulo base^n. */
  lemma {:induction false} ValueOfDigits(val: nat, n: nat, base: nat)
    requires ArithmeticBase(base)
    ensures Value(Digits(val, n, base), base) == val % Pow(base, n)
  {
    if n > 0 {
      var q := Pow(base, n - 1);
      ValueOfDigits(val / base, n - 1, base);
      var rest := Digits(val / base, n - 1, base);
      assert Digits(val, n, base)[1..] == rest;
      DigitOfModulus(val, q, base);
    }
  }

  lemma DigitOfModulus(val: nat, q: nat, base: nat)
    requires ArithmeticBase(base) && q > 0
    ensures val % (base * q) == val % base + base * (val / base % q)
  {
    var a := val / base;
    var k, r := a / q, a % q;
    assert a == k * q + r;
    if base == 10 {
      assert val == k * (10 * q) + (val % 10 + 10 * r);
      DivModUnique(val, 10 * q, k, val % 10 + 10 * r);
    } else {
      assert val == k * (16 * q) + (val % 16 + 16 * r);
      DivModUnique(val, 16 * q, k, val % 16 + 16 * r);
    }
  }

  /** And converting back gives the same digits, provided they are digits of the base. */
  lemma DigitsOfValue(s: seq<Digit>, base: nat)
    requires ArithmeticBase(base) && DigitsBelow(s, base)
    ensures Digits(Value(s, base), |s|, base) == s
  {
    ValueBound(s, base);
    ValueOfDigits(Value(s, base), |s|, base);
    DivModUnique(Value(s, base), Pow(base, |s|), 0, Value(s, base));
    ValueInjective(Digits(Value(s, base), |s|, base), s, base);
  }

  lemma HornerStep(v: nat, d: nat, base: nat)
    requires ArithmeticBase(base)
    ensures (v % UINT64 * base % UINT64 + d) % UINT64 == (d + base * v) % UINT64
  {
    var p := v % UINT64 * base;
    var s := p % UINT64 + d;
    var q := p / UINT64 + s / UINT64;
    if base == 10 {
      DivModUnique(d + 10 * v, UINT64, 10 * (v / UINT64) + q, s % UINT64);
    } else {
      DivModUnique(d + 16 * v, UINT64, 16 * (v / UINT64) + q, s % UINT64);
    }
  }

  /** reg_to_binary. */
  method RegToBinary(reg: array<Digit>, digits: nat) returns (val: nat)
    requires digits <= reg.Length
    ensures val == Value(reg[..digits], 16) % UINT64
  {
    val := 0;
    var i := digits;
    while i > 0
      invariant 0 <= i <= digits && val == Value(reg[i..digits], 16) % UINT64
    {
      i := i - 1;
      assert reg[i..digits][1..] == reg[i + 1..digits];
      HornerStep(Value(reg[i + 1..digits], 16), reg[i], 16);
      val := val * 16 % UINT64;
      val := (val + reg[i]) % UINT64;
    }
  }

  /** bcd_reg_to_binary. */
  method BcdRegToBinary(reg: array<Digit>, digits: nat) returns (val: nat)
    requires digits <= reg.Length
    ensures val == Value(reg[..digits], 10) % UINT64
  {
    val := 0;
    var i := digits;
    while i > 0
      invariant 0 <= i <= digits && val == Value(reg[i..digits], 10) % UINT64
    {
      i := i - 1;
      assert reg[i..digits][1..] == reg[i + 1..digits];
      HornerStep(Value(reg[i + 1..digits], 10), reg[i], 10);
      val := val * 10 % UINT64;
      val := (val + reg[i]) % UINT64;
    }
  }

  /** After i digits, what is left of the conversion is the conversion of what is left. */
  ghost predicate Converting(val: nat, i: nat, all: seq<Digit>, base: nat)
    requires ArithmeticBase(base) && i <= |all|
  {
    Digits(val, |all| - i, base) == all[i..]
  }

  lemma ConvertStep(val: nat, i: nat, all: seq<Digit>, base: nat)
    requires ArithmeticBase(base) && i < |all| && Converting(val, i, all, base)
    ensures all[i] == val % base && Converting(val / base, i + 1, all, base)
  {
    assert all[i] == all[i..][0] && all[i..][1..] == all[i + 1..];
  }

  /** binary_to_reg. */
  method BinaryToReg(val0: nat, reg: array<Digit>, digits: nat)
    requires digits <= reg.Length
    modifies reg
    ensures reg[..] == Digits(val0, digits, 16) + old(reg[digits..])
  {
    ghost var all := Digits(val0, digits, 16);
    assert all[0..] == all;
    var val := val0;
    for i := 0 to digits
      invariant val >= 0 && Converting(val, i, all, 16)
      invariant reg[..i] == all[..i] && reg[digits..] == old(reg[digits..])
    {
      ConvertStep(val, i, all, 16);
      reg[i] := val % 16;
      val := val / 16;
    }
  }

  /** binary_to_bcd_reg. */
  method BinaryToBcdReg(val0: nat, reg: array<Digit>, digits: nat)
    requires digits <= reg.Length
    modifies reg
    ensures reg[..] == Digits(val0, digits, 10) + old(reg[digits..])
  {
    ghost var all := Digits(val0, digits, 10);
    assert all[0..] == all;
    var val := val0;
    for i := 0 to digits
      invariant val >= 0 && Converting(val, i, all, 10)
      invariant reg[..i] == all[..i] && reg[digits..] == old(reg[digits..])
    {
      ConvertStep(val, i, all, 10);
      reg[i] := val % 10;
      val := val / 10;
    }
  }
}
