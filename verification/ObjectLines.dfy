/** Object file lines: printed by the assembler, src/asm.c, and parsed by the builder, src/build_ncd.c.
    A bank mask is the set of its one bits. */
module ObjectLines {

  datatype Option<+T> = None | Some(value: T)

  /** What a parser delivers for an accepted line. */
  datatype Line = Line(banks: set<nat>, addr: nat, opcode: nat)

  const BOTH_BANKS: set<nat> := {0, 1}

  // ---------- numerals ----------

  predicate Radix(base: nat) {
    base == 8 || base == 10 || base == 16
  }

  function Quotient(n: nat, base: nat): (q: nat)
    requires Radix(base)
    ensures q <= n && (n >= base ==> q < n)
  {
    if base == 8 then n / 8 else if base == 10 then n / 10 else n / 16
  }

  function Remainder(n: nat, base: nat): (r: nat)
    requires Radix(base)
    ensures r < base && (n < base ==> r == n)
  {
    if base == 8 then n % 8 else if base == 10 then n % 10 else n % 16
  }

  lemma QuotientRemainder(n: nat, base: nat)
    requires Radix(base)
    ensures Scaled(Quotient(n, base), base) + Remainder(n, base) == n
  {
  }

  function Scaled(v: nat, base: nat): (r: nat)
    requires Radix(base)
    ensures r == v * base
  {
    if base == 8 then 8 * v else if base == 10 then 10 * v else 16 * v
  }

  function DigitChar(d: nat): char
    requires d < 16
  {
    if d < 10 then '0' + d as char else 'a' + (d - 10) as char
  }

  /** printf with a zero-filled minimum width: at least `width` digits, more when the number needs them. */
  function Numeral(n: nat, width: nat, base: nat): (s: string)
    requires Radix(base)
    ensures |s| >= width && |s| >= 1
    decreases n + width
  {
    if n < base && width <= 1 then [DigitChar(n)]
    else
      Numeral(Quotient(n, base), if width > 0 then width - 1 else 0, base) + [DigitChar(Remainder(n, base))]
  }

  function Power(base: nat, k: nat): (p: nat)
    requires Radix(base)
    ensures p >= 1
  {
    if k == 0 then 1
    else if base == 8 then 8 * Power(8, k - 1)
    else if base == 10 then 10 * Power(10, k - 1)
    else 16 * Power(16, k - 1)
  }

  /** The minimum width is exceeded exactly by the numbers that do not fit in it. */
  lemma {:induction false} NumeralWidth(n: nat, width: nat, base: nat)
    requires Radix(base) && width >= 1
    ensures |Numeral(n, width, base)| == width <==> n < Power(base, width)
    decreases n + width
  {
    if n < base && width <= 1 {
      assert Power(base, 1) == base;
    } else if width > 1 {
      NumeralWidth(Quotient(n, base), width - 1, base);
    } else {
      assert Power(base, 1) == base;
    }
  }

  /** The value of a digit character in either case; 16 for any other character. */
  function DigitValue(c: char): (d: nat)
    ensures d <= 16
  {
    if '0' <= c <= '9' then (c - '0') as nat
    else if 'a' <= c <= 'f' then 10 + (c - 'a') as nat
    else if 'A' <= c <= 'F' then 10 + (c - 'A') as nat
    else 16
  }

  /** Letters count in either case: the six of them are the digits after nine. */
  lemma CaseOfDigits(i: nat)
    requires i < 6
    ensures DigitValue("abcdef"[i]) == DigitValue("ABCDEF"[i]) == 10 + i
    ensures DigitValue('G') == DigitValue('g') == 16
  {
  }

  /** The number a string of digits denotes. */
  function Parsed(s: string, base: nat): Option<nat>
    requires Radix(base)
  {
    if |s| == 0 then Some(0)
    else
      var front, d := Parsed(s[..|s| - 1], base), DigitValue(s[|s| - 1]);
      if front.None? || d >= base then None else Some(Scaled(front.value, base) + d)
  }

  lemma DigitRoundTrip(d: nat)
    requires d < 16
    ensures DigitValue(DigitChar(d)) == d
  {
  }

  /** A numeral of more than one digit is a shorter numeral and a last digit. */
  lemma LastPlace(n: nat, width: nat, base: nat) returns (q: nat, w: nat, d: nat)
    requires Radix(base) && (n >= base || width > 1)
    ensures d < base && q + w < n + width && Scaled(q, base) + d == n
    ensures Numeral(n, width, base) == Numeral(q, w, base) + [DigitChar(d)]
  {
    q, w, d := Quotient(n, base), if width > 0 then width - 1 else 0, Remainder(n, base);
    QuotientRemainder(n, base);
  }

  lemma {:induction false} NumeralRoundTrip(n: nat, width: nat, base: nat)
    requires Radix(base)
    ensures Parsed(Numeral(n, width, base), base) == Some(n)
    decreases n + width
  {
    if n < base && width <= 1 {
      OneDigit(n, width, base);
    } else {
      hide *;
      var q, w, d := LastPlace(n, width, base);
      NumeralRoundTrip(q, w, base);
      DigitRoundTrip(d);
      LastDigit(Numeral(q, w, base), DigitChar(d), base);
    }
  }

  lemma OneDigit(n: nat, width: nat, base: nat)
    requires Radix(base) && n < base && width <= 1
    ensures Parsed(Numeral(n, width, base), base) == Some(n)
  {
    NoDigits(base);
    DigitRoundTrip(n);
    LastDigit("", DigitChar(n), base);
    ScaledZero(base);
    assert "" + [DigitChar(n)] == [DigitChar(n)] == Numeral(n, width, base);
    hide *;
  }

  lemma ScaledZero(base: nat)
    requires Radix(base)
    ensures Scaled(0, base) == 0
  {
  }

  lemma NoDigits(base: nat)
    requires Radix(base)
    ensures Parsed("", base) == Some(0)
  {
  }

  lemma LastDigit(front: string, last: char, base: nat)
    requires Radix(base) && Parsed(front, base).Some? && DigitValue(last) < base
    ensures Parsed(front + [last], base) == Some(Scaled(Parsed(front, base).value, base) + DigitValue(last))
  {
    hide Scaled, DigitValue;
    assert (front + [last])[..|front|] == front;
  }

  lemma {:induction false} NumeralDigits(n: nat, width: nat, base: nat)
    requires Radix(base)
    ensures forall i :: 0 <= i < |Numeral(n, width, base)| ==> DigitValue(Numeral(n, width, base)[i]) < base
    decreases n + width
  {
    if n < base && width <= 1 {
      DigitRoundTrip(n);
    } else {
      NumeralDigits(Quotient(n, base), if width > 0 then width - 1 else 0, base);
      DigitRoundTrip(Remainder(n, base));
    }
  }

  // ---------- what the parsers accept ----------

  /** A character of a C string: the terminator beyond the end. */
  function CharAt(s: string, i: nat): char {
    if i < |s| then s[i] else '\0'
  }

  /** The address field, a colon and the opcode field. */
  function AddressAndOpcode(s: string, banks: set<nat>, opcodeDigits: nat, base: nat): Option<Line>
    requires Radix(base) && |s| >= 5 + opcodeDigits
  {
    var a, o := Parsed(s[..4], base), Parsed(s[5..5 + opcodeDigits], base);
    if s[4] != ':' || a.None? || o.None? then None else Some(Line(banks, a.value, o.value))
  }

  function ClassicLine(s: string): Option<Line> {
    if CharAt(s, 0) == '#' || |s| != 9 then None else AddressAndOpcode(s, {0}, 4, 8)
  }

  /** The banks up to the closing bracket, and what follows it. */
  function BankPrefix(s: string): Option<(set<nat>, string)> {
    if CharAt(s, 0) == ']' then Some(({}, s[1..]))
    else if DigitValue(CharAt(s, 0)) >= 8 then None
    else
      var rest := BankPrefix(s[1..]);
      Joined(rest, {DigitValue(s[0])})
  }

  function Joined(p: Option<(set<nat>, string)>, more: set<nat>): Option<(set<nat>, string)> {
    if p.None? then None else Some((p.value.0 + more, p.value.1))
  }

  lemma JoinedTwice(p: Option<(set<nat>, string)>, a: set<nat>, b: set<nat>)
    ensures Joined(Joined(p, a), b) == Joined(p, b + a) && Joined(p, {}) == p
  {
    if p.Some? {
      assert (p.value.0 + a) + b == p.value.0 + (b + a);
      assert p.value.0 + {} == p.value.0;
    }
  }

  /** A bracketed bank list, or both banks when there is none. */
  function Banks(s: string): Option<(set<nat>, string)> {
    if CharAt(s, 0) == '[' then BankPrefix(s[1..]) else Some((BOTH_BANKS, s))
  }

  function WoodstockLine(s: string): Option<Line> {
    if CharAt(s, 0) == '#' || Banks(s).None? then None
    else
      var (banks, rest) := Banks(s).value;
      if |rest| < 9 || |rest| > 10 then None else AddressAndOpcode(rest, banks, 4, 8)
  }

  function NutLine(s: string): Option<Line> {
    if CharAt(s, 0) == '#' || Banks(s).None? then None
    else
      var (banks, rest) := Banks(s).value;
      if |rest| != 8 then None else AddressAndOpcode(rest, banks, 3, 16)
  }

  // ---------- what the assembler prints ----------

  function Fields(addr: nat, opcode: nat, opcodeDigits: nat, base: nat): string
    requires Radix(base)
  {
    Numeral(addr, 4, base) + ":" + Numeral(opcode, opcodeDigits, base)
  }

  /** The banks from i on, each as a decimal number, run together. */
  function BankList(banks: set<nat>, i: nat): string
    decreases 32 - i
  {
    if i >= 32 then "" else (if i in banks then Numeral(i, 1, 10) else "") + BankList(banks, i + 1)
  }

  function PrintedWoodstock(banks: set<nat>, addr: nat, opcode: nat): string {
    (if banks != {} then "[" + BankList(banks, 0) + "]" else "") + Fields(addr, opcode % 1024, 4, 8)
  }

  // ---------- round trips ----------

  /** The fields come back exactly when the address fits its four digits. */
  lemma FieldsRoundTrip(addr: nat, opcode: nat, opcodeDigits: nat, base: nat, banks: set<nat>)
    requires Radix(base) && opcodeDigits >= 1 && opcode < Power(base, opcodeDigits)
    ensures var s := Fields(addr, opcode, opcodeDigits, base);
            && |s| >= 5 + opcodeDigits && (|s| == 5 + opcodeDigits <==> addr < Power(base, 4))
            && AddressAndOpcode(s, banks, opcodeDigits, base)
               == if addr < Power(base, 4) then Some(Line(banks, addr, opcode)) else None
  {
    var a, o := Numeral(addr, 4, base), Numeral(opcode, opcodeDigits, base);
    NumeralWidth(addr, 4, base);
    NumeralWidth(opcode, opcodeDigits, base);
    NumeralRoundTrip(addr, 4, base);
    NumeralRoundTrip(opcode, opcodeDigits, base);
    NumeralDigits(addr, 4, base);
    hide Numeral, Parsed, Power, Radix, DigitValue, AddressAndOpcode;
    JoinedFields(a, o, base, banks);
  }

  lemma JoinedFields(a: string, o: string, base: nat, banks: set<nat>)
    requires Radix(base) && |a| >= 4 && (|a| > 4 ==> DigitValue(a[4]) < base)
    requires Parsed(a, base).Some? && Parsed(o, base).Some?
    ensures AddressAndOpcode(a + ":" + o, banks, |o|, base)
            == if |a| == 4 then Some(Line(banks, Parsed(a, base).value, Parsed(o, base).value)) else None
  {
    hide Parsed;
    var s := a + ":" + o;
    if |a| == 4 {
      assert s[..4] == a && s[5..5 + |o|] == o;
    } else {
      assert s[4] == a[4];
    }
  }

  lemma FieldsStart(addr: nat, opcode: nat, opcodeDigits: nat, base: nat)
    requires Radix(base)
    ensures DigitValue(CharAt(Fields(addr, opcode, opcodeDigits, base), 0)) < base
  {
    NumeralDigits(addr, 4, base);
  }

  lemma Powers()
    ensures Power(8, 4) == 4096 && Power(16, 4) == 65536 && Power(16, 3) == 4096
  {
    assert Power(8, 2) == 64 && Power(16, 2) == 256;
  }

  /** A Classic line comes back exactly when its address has at most twelve bits. */
  lemma ClassicRoundTrip(addr: nat, opcode: nat)
    ensures ClassicLine(Fields(addr, opcode % 1024, 4, 8))
            == if addr < 4096 then Some(Line({0}, addr, opcode % 1024)) else None
  {
    Powers();
    FieldsStart(addr, opcode % 1024, 4, 8);
    FieldsRoundTrip(addr, opcode % 1024, 4, 8, {0});
  }

  function From(banks: set<nat>, i: nat): set<nat> {
    set b | b in banks && i <= b
  }

  /** The list of the banks from i on starts with the digit of bank i when it is in the mask. */
  lemma BankListStep(banks: set<nat>, i: nat)
    requires i < 8
    ensures BankList(banks, i) == if i in banks then [DigitChar(i)] + BankList(banks, i + 1) else BankList(banks, i + 1)
  {
    assert Numeral(i, 1, 10) == [DigitChar(i)];
  }

  lemma {:induction false} NoMoreBanks(banks: set<nat>, i: nat)
    requires 8 <= i <= 32 && forall b :: b in banks ==> b < 8
    ensures BankList(banks, i) == ""
    decreases 32 - i
  {
    if i < 32 {
      NoMoreBanks(banks, i + 1);
    }
  }

  lemma FromStep(banks: set<nat>, i: nat)
    ensures From(banks, i) == if i in banks then From(banks, i + 1) + {i} else From(banks, i + 1)
  {
  }

  lemma {:induction false} BankListRoundTrip(banks: set<nat>, i: nat, tail: string)
    requires i <= 8 && forall b :: b in banks ==> b < 8
    requires BankPrefix(tail).Some? && BankPrefix(tail).value.0 == {}
    ensures BankPrefix(BankList(banks, i) + tail) == Some((From(banks, i), BankPrefix(tail).value.1))
    decreases 8 - i
  {
    FromStep(banks, i);
    hide BankList, BankPrefix, DigitChar, DigitValue;
    if i == 8 {
      NoMoreBanks(banks, 8);
      assert "" + tail == tail;
      assert From(banks, 8) == {};
    } else {
      hide From;
      BankListRoundTrip(banks, i + 1, tail);
      BankListStep(banks, i);
      if i in banks {
        DigitRoundTrip(i);
        var more := BankList(banks, i + 1);
        assert ([DigitChar(i)] + more) + tail == [DigitChar(i)] + (more + tail);
        OneBank(DigitChar(i), more + tail);
      }
    }
  }

  lemma OneBank(c: char, tail: string)
    requires DigitValue(c) < 8
    ensures BankPrefix([c] + tail) == Joined(BankPrefix(tail), {DigitValue(c)})
  {
    assert ([c] + tail)[1..] == tail;
  }

  /** Whatever a bracketed list contains, only banks 0 to 7 can come out of it. */
  lemma {:induction false} BankPrefixRange(s: string)
    ensures BankPrefix(s).Some? ==> forall b :: b in BankPrefix(s).value.0 ==> b < 8
    ensures BankPrefix(s).Some? ==> |BankPrefix(s).value.1| <= |s|
  {
    if CharAt(s, 0) != ']' && DigitValue(CharAt(s, 0)) < 8 {
      BankPrefixRange(s[1..]);
    }
  }

  /** The bank list comes back, with the fields behind it, exactly when no bank is above 7. */
  lemma PrintedBanks(banks: set<nat>, addr: nat, opcode: nat)
    requires forall b :: b in banks ==> b < 32
    ensures var s, fields := PrintedWoodstock(banks, addr, opcode), Fields(addr, opcode % 1024, 4, 8);
            && CharAt(s, 0) != '#'
            && (Banks(s).Some? && Banks(s).value.0 == (if banks == {} then BOTH_BANKS else banks)
                <==> forall b :: b in banks ==> b < 8)
            && ((forall b :: b in banks ==> b < 8) ==> Banks(s).value.1 == fields)
  {
    var fields := Fields(addr, opcode % 1024, 4, 8);
    FieldsStart(addr, opcode % 1024, 4, 8);
    var s := PrintedWoodstock(banks, addr, opcode);
    if banks != {} {
      BracketedBanks(banks, fields);
      assert s == "[" + BankList(banks, 0) + "]" + fields;
    } else {
      assert s == "" + fields;
      assert "" + fields == fields;
    }
  }

  lemma BracketedBanks(banks: set<nat>, fields: string)
    ensures var s := "[" + BankList(banks, 0) + "]" + fields;
            && CharAt(s, 0) == '['
            && (Banks(s).Some? && Banks(s).value.0 == banks ==> forall b :: b in banks ==> b < 8)
            && ((forall b :: b in banks ==> b < 8) ==> Banks(s) == Some((banks, fields)))
  {
    var list := BankList(banks, 0);
    var tail := "]" + fields;
    var s := "[" + list + "]" + fields;
    assert s[1..] == list + tail;
    BankPrefixRange(list + tail);
    assert tail[1..] == fields;
    if forall b :: b in banks ==> b < 8 {
      BankListRoundTrip(banks, 0, tail);
      assert From(banks, 0) == banks;
    }
  }

  /** A Woodstock line comes back, an empty mask as both banks, exactly when its address has at most
      twelve bits and its mask has no bit above 7. */
  lemma WoodstockRoundTrip(banks: set<nat>, addr: nat, opcode: nat)
    requires forall b :: b in banks ==> b < 32
    ensures WoodstockLine(PrintedWoodstock(banks, addr, opcode))
            == Some(Line(if banks == {} then {0, 1} else banks, addr, opcode % 1024))
            <==> addr < 4096 && forall b :: b in banks ==> b < 8
  {
    var op := opcode % 1024;
    var fields := Fields(addr, op, 4, 8);
    Powers();
    FieldsRoundTrip(addr, op, 4, 8, if banks == {} then BOTH_BANKS else banks);
    PrintedBanks(banks, addr, opcode);
    hide Fields, AddressAndOpcode, Power, Banks, PrintedWoodstock;
  }

  /** A Nut line, printed without masking the opcode, comes back for both banks exactly when the address
      fits four hexadecimal digits and the opcode three. */
  lemma NutRoundTrip(addr: nat, opcode: nat)
    ensures NutLine(Fields(addr, opcode, 3, 16)) == Some(Line({0, 1}, addr, opcode))
            <==> addr < 0x10000 && opcode < 0x1000
  {
    Powers();
    FieldsStart(addr, opcode, 3, 16);
    if opcode < 0x1000 {
      FieldsRoundTrip(addr, opcode, 3, 16, BOTH_BANKS);
    } else {
      NumeralWidth(opcode, 3, 16);
    }
  }

  // ---------- the printers ----------

  /** write_obj_classic. */
  method WriteObjClassic(pc: nat, objWordCount: nat, opcode: nat) returns (f: string)
    requires objWordCount >= 1
    ensures f == Fields(pc + objWordCount - 1, opcode % 1024, 4, 8) + "\n"
  {
    f := Numeral(pc + (objWordCount - 1), 4, 8) + ":" + Numeral(opcode % 1024, 4, 8) + "\n";
  }

  /** The bracketed list of write_obj_woodstock, bit by bit. */
  method WriteBanks(bankMask: set<nat>) returns (f: string)
    ensures f == "[" + BankList(bankMask, 0) + "]"
  {
    hide Numeral;
    f := "[";
    for i := 0 to 32
      invariant f + BankList(bankMask, i) == "[" + BankList(bankMask, 0)
    {
      if i in bankMask {
        var digits := Numeral(i, 1, 10);
        assert f + (digits + BankList(bankMask, i + 1)) == (f + digits) + BankList(bankMask, i + 1);
        f := f + digits;
      } else {
        assert "" + BankList(bankMask, i + 1) == BankList(bankMask, i + 1);
      }
    }
    assert f + "" == f;
    f := f + "]";
  }

  /** write_obj_woodstock. */
  method WriteObjWoodstock(bankMask: set<nat>, pc: nat, objWordCount: nat, opcode: nat) returns (f: string)
    requires objWordCount >= 1
    ensures f == PrintedWoodstock(bankMask, pc + objWordCount - 1, opcode) + "\n"
  {
    hide Numeral, BankList;
    f := "";
    if bankMask != {} {
      f := WriteBanks(bankMask);
    }
    f := f + (Numeral(pc + (objWordCount - 1), 4, 8) + ":" + Numeral(opcode % 1024, 4, 8)) + "\n";
  }

  /** write_obj_nut. */
  method WriteObjNut(pc: nat, objWordCount: nat, opcode: nat) returns (f: string)
    requires objWordCount >= 1
    ensures f == Fields(pc + objWordCount - 1, opcode, 3, 16) + "\n"
  {
    f := Numeral(pc + (objWordCount - 1), 4, 16) + ":" + Numeral(opcode, 3, 16) + "\n";
  }

  // ---------- the parsers ----------

  lemma {:induction false} BadDigit(s: string, i: nat, base: nat)
    requires Radix(base) && i < |s| && DigitValue(s[i]) >= base
    ensures Parsed(s, base).None?
  {
    if i < |s| - 1 {
      BadDigit(s[..|s| - 1], i, base);
    }
  }

  /** parse_octal and parse_hex: `digits` characters from `pos` on. */
  method ParseNumber(buf: string, pos: nat, digits: nat, base: nat) returns (ok: bool, val: nat)
    requires Radix(base) && base != 10 && pos + digits <= |buf|
    ensures (if ok then Some(val) else None) == Parsed(buf[pos..pos + digits], base)
  {
    ghost var field := buf[pos..pos + digits];
    NoDigits(base);
    hide Parsed, DigitValue, Scaled;
    val := 0;
    for k := 0 to digits
      invariant Parsed(field[..k], base) == Some(val)
    {
      var d := DigitValue(buf[pos + k]);
      if d >= base {
        BadDigit(field, k, base);
        return false, val;
      }
      assert field[..k + 1] == field[..k] + [buf[pos + k]];
      LastDigit(field[..k], buf[pos + k], base);
      val := val * base + d;
    }
    assert field[..digits] == field;
    ok := true;
  }

  /** What the three parsers share: the colon and the two fields of a line of the right length. */
  method ParseFields(buf: string, banks: set<nat>, opcodeDigits: nat, base: nat) returns (r: Option<Line>)
    requires Radix(base) && base != 10 && |buf| >= 5 + opcodeDigits
    ensures r == AddressAndOpcode(buf, banks, opcodeDigits, base)
  {
    if buf[4] != ':' {
      return None;
    }
    assert buf[0..4] == buf[..4];
    var okA, a := ParseNumber(buf, 0, 4, base);
    if !okA {
      return None;
    }
    var okO, o := ParseNumber(buf, 5, opcodeDigits, base);
    if !okO {
      return None;
    }
    r := Some(Line(banks, a, o));
  }

  method ParseClassic(buf: string) returns (r: Option<Line>)
    ensures r == ClassicLine(buf)
  {
    if CharAt(buf, 0) == '#' {
      return None;
    }
    if |buf| != 9 {
      return None;
    }
    r := ParseFields(buf, {0}, 4, 8);
  }

  /** The bracketed bank list: one octal digit a bank, up to the bracket. */
  method ParseBanks(buf: string) returns (ok: bool, banks: set<nat>, rest: string)
    ensures (if ok then Some((banks, rest)) else None) == Banks(buf)
  {
    if CharAt(buf, 0) != '[' {
      return true, BOTH_BANKS, buf;
    }
    banks, rest := {}, buf[1..];
    ghost var all := rest;
    JoinedTwice(BankPrefix(rest), {}, {});
    while CharAt(rest, 0) != ']'
      invariant BankPrefix(all) == Joined(BankPrefix(rest), banks)
      decreases |rest|
    {
      var b := DigitValue(CharAt(rest, 0));
      if b >= 8 {
        return false, banks, rest;
      }
      JoinedTwice(BankPrefix(rest[1..]), {b}, banks);
      banks := banks + {b};
      rest := rest[1..];
    }
    assert {} + banks == banks;
    rest := rest[1..];
    ok := true;
  }

  method ParseWoodstock(buf: string) returns (r: Option<Line>)
    ensures r == WoodstockLine(buf)
  {
    if CharAt(buf, 0) == '#' {
      return None;
    }
    var ok, banks, rest := ParseBanks(buf);
    if !ok {
      return None;
    }
    if |rest| < 9 || |rest| > 10 {
      return None;
    }
    r := ParseFields(rest, banks, 4, 8);
  }

  method ParseNut(buf: string) returns (r: Option<Line>)
    ensures r == NutLine(buf)
  {
    if CharAt(buf, 0) == '#' {
      return None;
    }
    var ok, banks, rest := ParseBanks(buf);
    if !ok {
      return None;
    }
    if |rest| != 8 {
      return None;
    }
    r := ParseFields(rest, banks, 3, 16);
  }
}
