/** The code of src/proc_classic.c: a processor whose operations change its registers in place, reached
    through a table of operations that the processor builds for itself. */
module Classic {
  import opened DigitOps
  import opened ClassicSpec

  // ---------- the dispatch table ----------

  /** What init_ops has put in the table after each of its loops. */
  function AfterTypes12(o: nat): Op {
    match o % 4 case 1 => Jsb case 2 => ArithField case 3 => Goto case _ => BadOp
  }

  /** The status instructions: k of the sixteen rows are done. */
  function AfterStatus(o: nat, k: nat): Op {
    var row, col := o / 64, o % 64;
    if col == 0x04 && row < k then SetS
    else if col == 0x14 && row < k then TestS
    else if col == 0x24 && row < k then ClrS
    else if o == 0x34 && k > 0 then ClearS
    else AfterTypes12(o)
  }

  /** The delayed selects, wedged into unused status instructions. */
  function AfterSelects(o: nat, k: nat): Op {
    if o % 64 == 0x34 && o / 64 % 2 == 1 && o / 64 / 2 < k then DelSelRom else AfterStatus(o, 16)
  }

  function AfterPointer(o: nat, k: nat): Op {
    var row, col := o / 64, o % 64;
    if col == 0x0c && row < k then SetP
    else if col == 0x2c && row < k then TestP
    else if o == 0x1c && k > 0 then DecP
    else if o == 0x3c && k > 0 then IncP
    else if o == 0x234 || o == 0x2b4 then DelSelGrp
    else AfterSelects(o, 8)
  }

  function AfterConstants(o: nat, k: nat): Op {
    if o % 64 == 0x18 && o / 64 < k then LoadConstant else AfterPointer(o, 16)
  }

  method InitOps(table: array<Op>)
    requires table.Length == 1024
    modifies table
    ensures forall o: Word :: table[o] == Decode(o)
  {
    hide Decode, AfterTypes12, AfterStatus, AfterPointer, AfterConstants, AfterData, AfterRom;
    InitTypes12(table);
    InitStatus(table);
    InitSelects(table);
    InitPointer(table);
    InitConstants(table);
    InitRegisters(table);
    InitRom(table);
    table[0x270] := CToAddr;
    table[0x2f0] := CToData;
    table[0x200] := RomAddrToBuf;
    table[0x000] := Nop;
    forall o: Word
      ensures table[o] == Decode(o)
    {
      TableIsDecoder(o);
    }
  }

  method InitTypes12(table: array<Op>)
    requires table.Length == 1024
    modifies table
    ensures forall o :: 0 <= o < 1024 ==> table[o] == AfterTypes12(o)
  {
    var i := 0;
    while i < 1024
      invariant 0 <= i <= 1024 && i % 4 == 0
      invariant forall o :: 0 <= o < i ==> table[o] == AfterTypes12(o)
    {
      table[i] := BadOp;
      table[i + 1] := Jsb;
      table[i + 2] := ArithField;
      table[i + 3] := Goto;
      i := i + 4;
    }
  }

  method InitStatus(table: array<Op>)
    requires table.Length == 1024
    requires forall o :: 0 <= o < 1024 ==> table[o] == AfterTypes12(o)
    modifies table
    ensures forall o :: 0 <= o < 1024 ==> table[o] == AfterStatus(o, 16)
  {
    for i := 0 to 16
      invariant forall o :: 0 <= o < 1024 ==> table[o] == AfterStatus(o, i)
    {
      table[0x004 + i * 64] := SetS;
      table[0x014 + i * 64] := TestS;
      table[0x024 + i * 64] := ClrS;
      table[0x034] := ClearS;
    }
  }

  method InitSelects(table: array<Op>)
    requires table.Length == 1024
    requires forall o :: 0 <= o < 1024 ==> table[o] == AfterStatus(o, 16)
    modifies table
    ensures forall o :: 0 <= o < 1024 ==> table[o] == AfterPointer(o, 0)
  {
    hide AfterStatus;
    for i := 0 to 8
      invariant forall o :: 0 <= o < 1024 ==> table[o] == AfterSelects(o, i)
    {
      table[0x074 + i * 128] := DelSelRom;
    }
    table[0x234] := DelSelGrp;
    table[0x2b4] := DelSelGrp;
  }

  method InitPointer(table: array<Op>)
    requires table.Length == 1024
    requires forall o :: 0 <= o < 1024 ==> table[o] == AfterPointer(o, 0)
    modifies table
    ensures forall o :: 0 <= o < 1024 ==> table[o] == AfterPointer(o, 16)
  {
    hide AfterSelects;
    for i := 0 to 16
      invariant forall o :: 0 <= o < 1024 ==> table[o] == AfterPointer(o, i)
    {
      table[0x00c + i * 64] := SetP;
      table[0x02c + i * 64] := TestP;
      table[0x01c] := DecP;
      table[0x03c] := IncP;
    }
  }

  method InitConstants(table: array<Op>)
    requires table.Length == 1024
    requires forall o :: 0 <= o < 1024 ==> table[o] == AfterPointer(o, 16)
    modifies table
    ensures forall o :: 0 <= o < 1024 ==> table[o] == AfterConstants(o, 10)
  {
    hide AfterPointer;
    for i := 0 to 10
      invariant forall o :: 0 <= o < 1024 ==> table[o] == AfterConstants(o, i)
    {
      table[0x018 + i * 64] := LoadConstant;
    }
  }

  /** The entries of single register operations. */
  function Named(o: nat, otherwise: Op): Op {
    if o == 0x028 then DisplayToggle
    else if o == 0x0a8 then CExchM
    else if o == 0x128 then CToStack
    else if o == 0x1a8 then StackToA
    else if o == 0x228 then DisplayOff
    else if o == 0x2a8 then MToC
    else if o == 0x328 then DownRotate
    else if o == 0x3a8 then ClearReg
    else otherwise
  }

  /** The entries for loading from RAM: i whole columns and j of the next one. */
  function AfterData(o: nat, i: nat, j: nat): Op {
    var row, col := o / 64, o % 64;
    if row % 4 == 3 && ((col == 0x28 && (i > 0 || row / 4 < j))
                        || (col == 0x38 && (i > 1 || (i == 1 && row / 4 < j)))) then DataToC
    else Named(o, AfterConstants(o, 10))
  }

  method InitRegisters(table: array<Op>)
    requires table.Length == 1024
    requires forall o :: 0 <= o < 1024 ==> table[o] == AfterConstants(o, 10)
    modifies table
    ensures forall o :: 0 <= o < 1024 ==> table[o] == AfterData(o, 2, 0)
  {
    hide AfterConstants;
    for i := 0 to 2
      invariant forall o :: 0 <= o < 1024 ==> table[o] == if i == 0 then AfterConstants(o, 10) else AfterData(o, i, 0)
    {
      InitNamed(table);
      NamedAgain(i);
      InitData(table, i);
    }
  }

  /** Setting the single entries once more does not disturb the others. */
  lemma NamedAgain(i: nat)
    ensures forall o :: 0 <= o < 1024 ==> Named(o, AfterData(o, i, 0)) == AfterData(o, i, 0)
  {
    hide AfterConstants;
  }

  method InitNamed(table: array<Op>)
    requires table.Length == 1024
    modifies table
    ensures forall o :: 0 <= o < 1024 ==> table[o] == Named(o, old(table[o]))
  {
    table[0x028], table[0x0a8], table[0x128], table[0x1a8] := DisplayToggle, CExchM, CToStack, StackToA;
    table[0x228], table[0x2a8], table[0x328], table[0x3a8] := DisplayOff, MToC, DownRotate, ClearReg;
  }

  method InitData(table: array<Op>, i: nat)
    requires table.Length == 1024 && i < 2
    requires forall o :: 0 <= o < 1024 ==> table[o] == AfterData(o, i, 0)
    modifies table
    ensures forall o :: 0 <= o < 1024 ==> table[o] == AfterData(o, i + 1, 0)
  {
    hide AfterConstants, Named;
    for j := 0 to 4
      invariant forall o :: 0 <= o < 1024 ==> table[o] == AfterData(o, i, j)
    {
      table[0x0e8 + j * 256 + i * 16] := DataToC;
    }
  }

  /** The ROM and transfer instructions: k of the eight ROMs are done. */
  function AfterRom(o: nat, k: nat): Op {
    var row, col := o / 64, o % 64;
    if col == 0x10 && row % 2 == 0 && row / 2 < k then SelRom
    else if o == 0x030 && k > 0 then Return
    else if o == 0x0d0 && k > 1 then KeysToRom
    else AfterData(o, 2, 0)
  }

  method InitRom(table: array<Op>)
    requires table.Length == 1024
    requires forall o :: 0 <= o < 1024 ==> table[o] == AfterData(o, 2, 0)
    modifies table
    ensures forall o :: 0 <= o < 1024 ==> table[o] == AfterRom(o, 8)
  {
    hide AfterData;
    for i := 0 to 8
      invariant forall o :: 0 <= o < 1024 ==> table[o] == AfterRom(o, i)
    {
      table[0x010 + i * 128] := SelRom;
      table[0x030] := Return;
      if i % 2 == 1 {
        table[0x050 + 0x080] := KeysToRom;
      }
    }
  }

  /** The finished table: the last four entries complete it. */
  function Table(o: nat): Op {
    match o
    case 0x270 => CToAddr
    case 0x2f0 => CToData
    case 0x200 => RomAddrToBuf
    case 0x000 => Nop
    case _ => AfterRom(o, 8)
  }

  lemma FirstTypes(o: Word)
    requires o % 4 != 0
    ensures Decode(o) == Table(o)
  {
    var col := o % 64;
    assert col % 4 != 0 && o != 0x34;
    assert AfterStatus(o, 16) == AfterTypes12(o);
    assert AfterSelects(o, 8) == AfterTypes12(o);
    hide AfterStatus, AfterSelects;
    assert AfterPointer(o, 16) == AfterTypes12(o);
    assert AfterConstants(o, 10) == AfterTypes12(o);
    hide AfterPointer, AfterConstants;
    assert Named(o, AfterTypes12(o)) == AfterTypes12(o);
  }

  lemma StatusColumns(o: Word)
    requires o % 16 == 4
    ensures Decode(o) == Table(o)
  {
    assert o == 64 * (o / 64) + o % 64 && o % 4 == 0 && o % 64 % 16 == 4;
  }

  lemma PointerColumns(o: Word)
    requires o % 16 == 12
    ensures Decode(o) == Table(o)
  {
    assert o == 64 * (o / 64) + o % 64 && o % 4 == 0 && o % 64 % 16 == 12;
  }

  lemma RegisterColumns(o: Word)
    requires o % 16 == 8
    ensures Decode(o) == Table(o)
  {
    assert o == 64 * (o / 64) + o % 64 && o % 4 == 0 && o % 64 % 16 == 8;
  }

  lemma RomColumns(o: Word)
    requires o % 16 == 0
    ensures Decode(o) == Table(o)
  {
    assert o == 64 * (o / 64) + o % 64 && o % 4 == 0 && o % 64 % 16 == 0;
  }

  /** The table the loops build holds, for every word, the operation its bit pattern names. */
  lemma TableIsDecoder(o: Word)
    ensures Decode(o) == Table(o)
  {
    hide Decode, Table;
    if o % 4 != 0 {
      FirstTypes(o);
    } else if o % 16 == 4 {
      StatusColumns(o);
    } else if o % 16 == 12 {
      PointerColumns(o);
    } else if o % 16 == 8 {
      RegisterColumns(o);
    } else {
      RomColumns(o);
    }
  }

  // ---------- allocation ----------

  method NewRegister() returns (r: array<Digit>)
    ensures fresh(r) && r.Length == WSIZE && r[..] == ZERO
  {
    r := new Digit[WSIZE](_ => 0);
  }

  method NewRegisters() returns (a: array<Digit>, b: array<Digit>, c: array<Digit>, d: array<Digit>, e: array<Digit>,
                               f: array<Digit>, m: array<Digit>)
    ensures fresh(a) && fresh(b) && fresh(c) && fresh(d) && fresh(e) && fresh(f) && fresh(m)
    ensures a.Length == b.Length == c.Length == d.Length == e.Length == f.Length == m.Length == WSIZE
    ensures a[..] == ZERO && b[..] == ZERO && c[..] == ZERO && d[..] == ZERO && e[..] == ZERO && f[..] == ZERO
            && m[..] == ZERO
    ensures a != b && a != c && a != d && a != e && a != f && a != m && b != c && b != d && b != e && b != f && b != m
    ensures c != d && c != e && c != f && c != m && d != e && d != f && d != m && e != f && e != m && f != m
  {
    hide Zeros;
    a := NewRegister();
    b := NewRegister();
    c := NewRegister();
    d := NewRegister();
    e := NewRegister();
    f := NewRegister();
    m := NewRegister();
  }

  method NewFlags() returns (s: array<bool>, ext: array<bool>)
    ensures fresh(s) && fresh(ext) && s != ext && s.Length == SSIZE && ext.Length == 2
    ensures s[..] == NoStatus() && ext[..] == [false, false]
  {
    s := new bool[SSIZE](_ => false);
    ext := new bool[2](_ => false);
  }

  method NewRam(n: nat) returns (r: array<Register>)
    ensures fresh(r) && r.Length == n && r[..] == seq(n, _ => ZERO)
  {
    r := new Register[n](_ => ZERO);
  }

  method NewRom(words: seq<Word>) returns (r: array<Word>)
    ensures fresh(r) && r[..] == words
  {
    r := new Word[|words|](i requires 0 <= i < |words| => words[i]);
  }

  method NewTable() returns (table: array<Op>)
    ensures fresh(table) && table.Length == 1024 && forall o: Word :: table[o] == Decode(o)
  {
    hide Decode;
    table := new Op[1024](_ => Nop);
    InitOps(table);
  }

  // ---------- the processor ----------

  class Cpu {
    const a: array<Digit>
    const b: array<Digit>
    const c: array<Digit>
    const d: array<Digit>
    const e: array<Digit>
    const f: array<Digit>
    const m: array<Digit>
    var p: nat
    var carry: bool
    var prevCarry: bool
    const s: array<bool>
    var pc: nat
    var rom: nat
    var group: nat
    var retPc: nat
    var delRomFlag: bool
    var delRom: nat
    var delGroupFlag: bool
    var delGroup: nat
    var display: bool
    var keyFlag: bool
    var keyBuf: int
    const ext: array<bool>
    var ramAddr: nat
    const ram: array<Register>
    const ucode: array<Word>
    const opFcn: array<Op>
    const twoDigit: bool

    /** The registers are separate arrays of fourteen digits. */
    predicate Shaped() {
      && a.Length == WSIZE && b.Length == WSIZE && c.Length == WSIZE && d.Length == WSIZE
      && e.Length == WSIZE && f.Length == WSIZE && m.Length == WSIZE
      && a != b && a != c && a != d && a != e && a != f && a != m
      && b != c && b != d && b != e && b != f && b != m
      && c != d && c != e && c != f && c != m
      && d != e && d != f && d != m && e != f && e != m && f != m
      && s.Length == SSIZE && ext.Length == 2 && s != ext
      && ucode.Length == 4096 && opFcn.Length == 1024
    }

    /** classic_new_processor: the allocator zeroes everything, then the table of operations is built. */
    constructor (words: seq<Word>, twoDigitRam: bool)
      requires |words| == 4096
      ensures Shaped() && ucode[..] == words && twoDigit == twoDigitRam
      ensures forall o: Word :: opFcn[o] == Decode(o)
      ensures Now() == PowerOn(if twoDigitRam then 100 else 10)
      ensures fresh(Arrays()) && fresh(s) && fresh(ext) && fresh(ram)
    {
      var a0, b0, c0, d0, e0, f0, m0 := NewRegisters();
      var s0, ext0 := NewFlags();
      var ram0 := NewRam(if twoDigitRam then 100 else 10);
      var ucode0 := NewRom(words);
      var opFcn0 := NewTable();
      a, b, c, d, e, f, m := a0, b0, c0, d0, e0, f0, m0;
      s, ext, ram, ucode, opFcn := s0, ext0, ram0, ucode0, opFcn0;
      twoDigit := twoDigitRam;
      p, carry, prevCarry, display, keyFlag, keyBuf, ramAddr := 0, false, false, false, false, 0, 0;
      pc, rom, group, retPc := 0, 0, 0, 0;
      delRomFlag, delRom, delGroupFlag, delGroup := false, 0, false, 0;
      new;
      hide Decode, NoStatus, Zeros;
    }

    function Arrays(): set<object> {
      {this, a, b, c, d, e, f, m}
    }

    function Acc(): Accumulators
      requires Shaped()
      reads this`carry, a, b, c
    {
      Accumulators(a[..], b[..], c[..], carry)
    }

    function At(): Addressing
      reads this
    {
      Addressing(pc, rom, group, retPc, delRomFlag, delRom, delGroupFlag, delGroup)
    }

    /** The machine this processor is at the moment. */
    function Now(): Machine
      requires Shaped()
      reads this, a, b, c, d, e, f, m, s, ext, ram
    {
      Machine(Acc(), d[..], e[..], f[..], m[..], p, prevCarry, s[..], At(), display, keyFlag, keyBuf, ext[..],
          ramAddr, ram[..])
    }

    /** The digits the field code of an arithmetic word selects. */
    method FieldBounds(field: nat) returns (first: nat, last: nat)
      requires field < 8
      ensures (first, last) == FieldOf(field, p)
    {
      first, last := 0, 0;
      match field
      case 0 =>
        first, last := p, p;
        if p >= WSIZE {
          last := 0;
        }
      case 1 => first, last := EXPSIZE, WSIZE - 2;
      case 2 => first, last := 0, EXPSIZE - 1;
      case 3 => first, last := 0, WSIZE - 1;
      case 4 =>
        first, last := 0, p;
        if p >= WSIZE {
          last := WSIZE - 1;
        }
      case 5 => first, last := EXPSIZE, WSIZE - 1;
      case 6 => first, last := EXPSIZE - 1, EXPSIZE - 1;
      case _ => first, last := WSIZE - 1, WSIZE - 1;
    }

    method OpArith(o: Word)
      requires Shaped()
      modifies this`carry, a, b, c
      ensures Acc() == ArithWord(old(Acc()), o, p)
    {
      var op := o / 32;
      var first, last := FieldBounds(o / 4 % 8);
      hide FieldOf, Arith, ArithOf;
      if op < 8 {
        Arith0(op, first, last);
      } else if op < 12 {
        Arith8(op, first, last);
      } else if op < 16 {
        Arith12(op, first, last);
      } else if op < 24 {
        Arith16(op, first, last);
      } else if op < 28 {
        Arith24(op, first, last);
      } else {
        Arith28(op, first, last);
      }
    }

    method Arith0(op: nat, first: nat, last: nat)
      requires Shaped() && op < 8 && (first <= last ==> last < WSIZE)
      modifies this`carry, a, b, c
      ensures Acc() == Arith(old(Acc()), ArithOf(op), first, last)
    {
      hide AddDigits, SubDigits, Zeros, Field, WithField, FieldLength;
      match op
      case 0 => carry := RegTestNonequal(b, null, first, last);
      case 1 => RegZero(b, first, last);
      case 2 => carry := RegSub(null, a, c, first, last, carry, 10);
      case 3 => carry := RegTestEqual(c, null, first, last);
      case 4 => RegCopy(c, b, first, last);
      case 5 => carry := RegSub(c, null, c, first, last, carry, 10);
      case 6 => RegZero(c, first, last);
      case _ =>
        carry := true;
        carry := RegSub(c, null, c, first, last, carry, 10);
    }

    method Arith8(op: nat, first: nat, last: nat)
      requires Shaped() && 8 <= op < 12 && (first <= last ==> last < WSIZE)
      modifies this`carry, a, b, c
      ensures Acc() == Arith(old(Acc()), ArithOf(op), first, last)
    {
      hide AddDigits, SubDigits, Zeros, Field, WithField, FieldLength, ShiftedLeft;
      match op
      case 8 => RegShiftLeft(a, first, last);
      case 9 => RegCopy(b, a, first, last);
      case 10 => carry := RegSub(c, a, c, first, last, carry, 10);
      case _ =>
        carry := true;
        carry := RegSub(c, c, null, first, last, carry, 10);
    }

    method Arith12(op: nat, first: nat, last: nat)
      requires Shaped() && 12 <= op < 16 && (first <= last ==> last < WSIZE)
      modifies this`carry, a, b, c
      ensures Acc() == Arith(old(Acc()), ArithOf(op), first, last)
    {
      hide AddDigits, SubDigits, Zeros, Field, WithField, FieldLength;
      match op
      case 12 => RegCopy(a, c, first, last);
      case 13 => carry := RegTestNonequal(c, null, first, last);
      case 14 => carry := RegAdd(c, a, c, first, last, carry, 10);
      case _ =>
        carry := true;
        carry := RegAdd(c, c, null, first, last, carry, 10);
    }

    method Arith16(op: nat, first: nat, last: nat)
      requires Shaped() && 16 <= op < 24 && (first <= last ==> last < WSIZE)
      modifies this`carry, a, b, c
      ensures Acc() == Arith(old(Acc()), ArithOf(op), first, last)
    {
      hide AddDigits, SubDigits, Zeros, Field, WithField, FieldLength, ShiftedRight;
      match op
      case 16 => carry := RegSub(null, a, b, first, last, carry, 10);
      case 17 => RegExch(b, c, first, last);
      case 18 => RegShiftRight(c, first, last);
      case 19 => carry := RegTestEqual(a, null, first, last);
      case 20 => RegShiftRight(b, first, last);
      case 21 => carry := RegAdd(c, c, c, first, last, carry, 10);
      case 22 => RegShiftRight(a, first, last);
      case _ => RegZero(a, first, last);
    }

    method Arith24(op: nat, first: nat, last: nat)
      requires Shaped() && 24 <= op < 28 && (first <= last ==> last < WSIZE)
      modifies this`carry, a, b, c
      ensures Acc() == Arith(old(Acc()), ArithOf(op), first, last)
    {
      hide AddDigits, SubDigits, Zeros, Field, WithField, FieldLength;
      match op
      case 24 => carry := RegSub(a, a, b, first, last, carry, 10);
      case 25 => RegExch(a, b, first, last);
      case 26 => carry := RegSub(a, a, c, first, last, carry, 10);
      case _ =>
        carry := true;
        carry := RegSub(a, a, null, first, last, carry, 10);
    }

    method Arith28(op: nat, first: nat, last: nat)
      requires Shaped() && 28 <= op < 32 && (first <= last ==> last < WSIZE)
      modifies this`carry, a, b, c
      ensures Acc() == Arith(old(Acc()), ArithOf(op), first, last)
    {
      hide AddDigits, SubDigits, Zeros, Field, WithField, FieldLength;
      match op
      case 28 => carry := RegAdd(a, a, b, first, last, carry, 10);
      case 29 => RegExch(a, c, first, last);
      case 30 => carry := RegAdd(a, a, c, first, last, carry, 10);
      case _ =>
        carry := true;
        carry := RegAdd(a, a, null, first, last, carry, 10);
    }

    // ---------- branches and selects ----------

    method OpBranch(op: Op, o: Word)
      requires Branches(op)
      modifies this`pc, this`rom, this`retPc, this`delRom, this`delRomFlag, this`delGroup, this`delGroupFlag
      ensures At() == Branch(old(At()), op, o, prevCarry, keyBuf)
    {
      match op
      case Goto =>
        if !prevCarry {
          pc := o / 4;
        }
      case Jsb =>
        retPc := pc;
        pc := o / 4;
      case Return =>
        pc := retPc;
      case SelRom =>
        rom := o / 128;
      case DelSelRom =>
        delRom := o / 128;
        delRomFlag := true;
      case DelSelGrp =>
        delGroup := o / 128 % 2;
        delGroupFlag := true;
      case KeysToRom =>
        if keyBuf < 0 {
          pc := 0;
          return;
        }
        pc := keyBuf % 256;
    }

    // ---------- status, pointer and display ----------

    method OpClearS()
      requires Shaped()
      modifies s
      ensures s[..] == NoStatus()
    {
      for i := 0 to SSIZE
        invariant forall k :: 0 <= k < i ==> !s[k]
      {
        s[i] := false;
      }
    }

    method OpStatusBits(op: Op, n: nat)
      requires Shaped() && (op == SetS || op == ClrS || op == ClearS)
      modifies s
      ensures s[..] == StatusBits(old(s[..]), op, n)
    {
      match op
      case SetS =>
        if n < SSIZE {
          s[n] := true;
        }
      case ClrS =>
        if n < SSIZE {
          s[n] := false;
        }
      case ClearS => OpClearS();
    }

    function PanelNow(): Panel
      reads this`p, this`carry, this`display, s
    {
      Panel(p, carry, s[..], display)
    }

    method OpPanel(op: Op, o: Word)
      requires Shaped() && !Branches(op) && !Transfers(op)
      modifies this`p, this`carry, this`display, s
      ensures PanelNow() == PanelOp(old(PanelNow()), op, o / 64)
    {
      hide StatusBits;
      var n := o / 64;
      if op == SetS || op == ClrS || op == ClearS {
        OpStatusBits(op, n);
      } else if op == TestS {
        if n < SSIZE {
          carry := s[n];
        }
      } else {
        OpPointer(op, n);
      }
    }

    method OpPointer(op: Op, n: nat)
      requires Shaped() && op != SetS && op != ClrS && op != TestS && op != ClearS
      modifies this`p, this`carry, this`display
      ensures PanelNow() == PanelOp(old(PanelNow()), op, n)
    {
      hide StatusBits;
      match op
      case SetP => p := n;
      case TestP => carry := p == n;
      case DecP => p := (p + 15) % 16;  // p - 1, kept to four bits
      case IncP => p := (p + 1) % 16;
      case DisplayToggle => display := !display;
      case DisplayOff => display := false;
      case _ =>
    }

    // ---------- registers and RAM ----------

    method OpCExchM()
      requires Shaped()
      modifies c, m
      ensures c[..] == old(m[..]) && m[..] == old(c[..])
    {
      for i := 0 to WSIZE
        invariant forall k :: 0 <= k < i ==> c[k] == old(m[k]) && m[k] == old(c[k])
        invariant forall k :: i <= k < WSIZE ==> c[k] == old(c[k]) && m[k] == old(m[k])
      {
        var t := c[i];
        c[i] := m[i];
        m[i] := t;
      }
    }

    method OpMToC()
      requires Shaped()
      modifies c
      ensures c[..] == m[..]
    {
      for i := 0 to WSIZE
        invariant forall k :: 0 <= k < i ==> c[k] == m[k]
      {
        c[i] := m[i];
      }
    }

    method OpCToStack()
      requires Shaped()
      modifies d, e, f
      ensures d[..] == c[..] && e[..] == old(d[..]) && f[..] == old(e[..])
    {
      for i := 0 to WSIZE
        invariant forall k :: 0 <= k < i ==> d[k] == c[k] && e[k] == old(d[k]) && f[k] == old(e[k])
        invariant forall k :: i <= k < WSIZE ==> d[k] == old(d[k]) && e[k] == old(e[k])
      {
        f[i] := e[i];
        e[i] := d[i];
        d[i] := c[i];
      }
    }

    method OpStackToA()
      requires Shaped()
      modifies a, d, e
      ensures a[..] == old(d[..]) && d[..] == old(e[..]) && e[..] == f[..]
    {
      for i := 0 to WSIZE
        invariant forall k :: 0 <= k < i ==> a[k] == old(d[k]) && d[k] == old(e[k]) && e[k] == f[k]
        invariant forall k :: i <= k < WSIZE ==> d[k] == old(d[k]) && e[k] == old(e[k])
      {
        a[i] := d[i];
        d[i] := e[i];
        e[i] := f[i];
      }
    }

    method OpDownRotate()
      requires Shaped()
      modifies c, d, e, f
      ensures c[..] == old(d[..]) && d[..] == old(e[..]) && e[..] == old(f[..]) && f[..] == old(c[..])
    {
      for i := 0 to WSIZE
        invariant forall k :: 0 <= k < i ==>
                    c[k] == old(d[k]) && d[k] == old(e[k]) && e[k] == old(f[k]) && f[k] == old(c[k])
        invariant forall k :: i <= k < WSIZE ==>
                    c[k] == old(c[k]) && d[k] == old(d[k]) && e[k] == old(e[k]) && f[k] == old(f[k])
      {
        var t := c[i];
        c[i] := d[i];
        d[i] := e[i];
        e[i] := f[i];
        f[i] := t;
      }
    }

    method OpClearReg()
      requires Shaped()
      modifies a, b, c, d, e, f, m
      ensures a[..] == ZERO && b[..] == ZERO && c[..] == ZERO && d[..] == ZERO && e[..] == ZERO && f[..] == ZERO
              && m[..] == ZERO
    {
      for i := 0 to WSIZE
        invariant forall k :: 0 <= k < i ==>
                    a[k] == 0 && b[k] == 0 && c[k] == 0 && d[k] == 0 && e[k] == 0 && f[k] == 0 && m[k] == 0
      {
        a[i], b[i], c[i], d[i], e[i], f[i], m[i] := 0, 0, 0, 0, 0, 0, 0;
      }
    }

    method OpLoadConstant(o: Word)
      requires Shaped()
      modifies this`p, c
      ensures Acc() == LoadDigit(old(Acc()), old(p), o / 64) && p == (old(p) + 15) % 16
    {
      if p >= WSIZE {
      } else if o / 64 > 9 {
      } else {
        c[p] := o / 64;
      }
      p := (p + 15) % 16;  // p - 1, kept to four bits
    }

    method OpCToAddr()
      requires Shaped()
      modifies this`ramAddr
      ensures ramAddr == RamAddress(c[..], twoDigit)
    {
      var high: int, low: int := c[12], c[11];
      if twoDigit {
        if c[0] != 0 {
          ramAddr := high * 16 + low;
        } else {
          ramAddr := high;
        }
      } else {
        ramAddr := high;
      }
    }

    method OpCToData()
      requires Shaped()
      modifies ram
      ensures ram[..] == if ramAddr >= ram.Length then old(ram[..]) else old(ram[..])[ramAddr := c[..]]
    {
      if ramAddr >= ram.Length {
        return;
      }
      for i := 0 to WSIZE
        invariant forall k :: 0 <= k < i ==> ram[ramAddr][k] == c[k]
        invariant forall k :: 0 <= k < ram.Length && k != ramAddr ==> ram[k] == old(ram[k])
      {
        ram[ramAddr] := ram[ramAddr][i := c[i]];
      }
      assert ram[ramAddr] == c[..];
    }

    method OpDataToC()
      requires Shaped()
      modifies c
      ensures c[..] == if ramAddr >= ram.Length then ZERO else ram[ramAddr]
    {
      if ramAddr >= ram.Length {
        for i := 0 to WSIZE
          invariant forall k :: 0 <= k < i ==> c[k] == 0
        {
          c[i] := 0;
        }
        return;
      }
      for i := 0 to WSIZE
        invariant forall k :: 0 <= k < i ==> c[k] == ram[ramAddr][k]
      {
        c[i] := ram[ramAddr][i];
      }
    }

    method OpCompute(op: Op, o: Word)
      requires Shaped() && (op == ArithField || op == LoadConstant)
      modifies this`p, this`carry, a, b, c
      ensures Now() == Transfer(old(Now()), op, o, twoDigit)
    {
      hide ArithWord, LoadDigit, RamAddress;
      match op
      case ArithField => OpArith(o);
      case LoadConstant => OpLoadConstant(o);
    }

    method OpMove(op: Op, o: Word)
      requires Shaped() && (op == CExchM || op == MToC || op == CToStack || op == DataToC)
      modifies c, d, e, f, m
      ensures Now() == Transfer(old(Now()), op, o, twoDigit)
    {
      hide ArithWord, LoadDigit, RamAddress;
      match op
      case CExchM => OpCExchM();
      case MToC => OpMToC();
      case CToStack => OpCToStack();
      case DataToC => OpDataToC();
    }

    method OpRotate(op: Op, o: Word)
      requires Shaped() && (op == StackToA || op == DownRotate || op == ClearReg)
      modifies a, b, c, d, e, f, m
      ensures Now() == Transfer(old(Now()), op, o, twoDigit)
    {
      hide ArithWord, LoadDigit, RamAddress;
      match op
      case StackToA => OpStackToA();
      case DownRotate => OpDownRotate();
      case ClearReg => OpClearReg();
    }

    method OpMemory(op: Op, o: Word)
      requires Shaped() && (op == CToAddr || op == CToData)
      modifies this`ramAddr, ram
      ensures Now() == Transfer(old(Now()), op, o, twoDigit)
    {
      hide ArithWord, LoadDigit, RamAddress;
      match op
      case CToAddr => OpCToAddr();
      case CToData => OpCToData();
    }

    // ---------- instructions and events ----------

    /** classic_execute_instruction. */
    method ExecuteInstruction()
      requires Shaped() && InRange(Now())
      requires forall o: Word :: opFcn[o] == Decode(o)
      modifies this, a, b, c, d, e, f, m, s, ram
      ensures Now() == React(old(Now()), Instruction, ucode[..], twoDigit)
    {
      hide Apply, Decode, Polled, Selected;
      var addr := group * 2048 + rom * 256 + pc;
      var opcode := ucode[addr];
      ghost var before := At();
      var prevDelGroupFlag, prevDelGroup := delGroupFlag, delGroup;
      var prevDelRomFlag, prevDelRom := delRomFlag, delRom;
      Prepare();
      ghost var m1 := Now();
      Dispatch(opFcn[opcode], opcode);
      ghost var m2 := Now();
      Select(prevDelGroupFlag, prevDelGroup, prevDelRomFlag, prevDelRom, before);
      assert Now() == m2.(at := Selected(before, m2.at));
    }

    /** What happens to the flags and the program counter before the operation. */
    method Prepare()
      requires Shaped()
      modifies this`prevCarry, this`carry, this`delGroupFlag, this`delRomFlag, this`pc, s
      ensures Now() == Prepared(old(Now()))
    {
      hide Polled;
      ClearFlags();
      Poll();
      pc := (pc + 1) % 256;
    }

    method ClearFlags()
      modifies this`prevCarry, this`carry, this`delGroupFlag, this`delRomFlag
      ensures prevCarry == old(carry) && !carry && !delGroupFlag && !delRomFlag
    {
      prevCarry := carry;
      carry := false;
      delGroupFlag := false;
      delRomFlag := false;
    }

    /** The selects of an earlier instruction take effect. */
    method Select(groupFlag: bool, newGroup: nat, romFlag: bool, newRom: nat, ghost before: Addressing)
      requires groupFlag == before.delGroupFlag && newGroup == before.delGroup
      requires romFlag == before.delRomFlag && newRom == before.delRom
      modifies this`group, this`rom
      ensures At() == Selected(before, old(At()))
    {
      if groupFlag {
        group := newGroup;
      }
      if romFlag {
        rom := newRom;
      }
    }

    /** The key and external flags set status bits. */
    method Poll()
      requires Shaped()
      modifies s
      ensures s[..] == Polled(old(s[..]), keyFlag, ext[..])
    {
      if keyFlag {
        s[0] := true;
      }
      if ext[0] {
        s[3] := true;
      }
      if ext[1] {
        s[11] := true;
      }
    }

    method Dispatch(op: Op, o: Word)
      requires Shaped()
      modifies this`p, this`carry, this`ramAddr, this`display, a, b, c, d, e, f, m, ram, s
      modifies this`pc, this`rom, this`retPc, this`delRom, this`delRomFlag, this`delGroup, this`delGroupFlag
      ensures Now() == Apply(old(Now()), op, o, twoDigit)
    {
      hide Transfer, Control;
      if Transfers(op) {
        DispatchTransfer(op, o);
      } else {
        DispatchControl(op, o);
      }
    }

    method DispatchTransfer(op: Op, o: Word)
      requires Shaped() && Transfers(op)
      modifies this`p, this`carry, this`ramAddr, a, b, c, d, e, f, m, ram
      ensures Now() == Transfer(old(Now()), op, o, twoDigit)
    {
      hide Transfer;
      match op
      case ArithField | LoadConstant => OpCompute(op, o);
      case CExchM | MToC | CToStack | DataToC => OpMove(op, o);
      case StackToA | DownRotate | ClearReg => OpRotate(op, o);
      case CToAddr | CToData => OpMemory(op, o);
    }

    method DispatchControl(op: Op, o: Word)
      requires Shaped() && !Transfers(op)
      modifies this`p, this`carry, this`display, s
      modifies this`pc, this`rom, this`retPc, this`delRom, this`delRomFlag, this`delGroup, this`delGroupFlag
      ensures Now() == Control(old(Now()), op, o)
    {
      hide Branch, PanelOp;
      if Branches(op) {
        OpBranch(op, o);
      } else {
        OpPanel(op, o);
      }
    }

    /** classic_reset. */
    method Reset()
      requires Shaped()
      modifies this, a, b, c, d, e, f, m, s
      ensures Now() == ResetMachine(old(Now()))
    {
      ResetAddress();
      OpClearReg();
      OpClearS();
      p := 0;
      display := false;
      keyFlag := false;
    }

    method ResetAddress()
      modifies this`pc, this`rom, this`group, this`delRomFlag, this`delRom, this`delGroupFlag, this`delGroup
      ensures At() == Addressing(0, 0, 0, retPc, false, 0, false, 0)
    {
      pc, rom, group := 0, 0, 0;
      delRomFlag, delRom := false, 0;
      delGroupFlag, delGroup := false, 0;
    }

    /** classic_clear_memory. */
    method ClearRam()
      requires Shaped()
      modifies ram
      ensures ram[..] == seq(ram.Length, _ => ZERO)
    {
      for addr := 0 to ram.Length
        invariant forall k :: 0 <= k < addr ==> ram[k] == ZERO
      {
        var reg := new Digit[WSIZE](i requires 0 <= i < WSIZE reads ram => ram[addr][i]);
        RegZero(reg, 0, WSIZE - 1);
        ram[addr] := reg[..];
        assert ram[addr] == ZERO;
      }
    }

    /** classic_event_fn and the instruction loop: one event of a run. */
    method Handle(ev: Event)
      requires Shaped() && InRange(Now()) && Sensible(ev)
      requires forall o: Word :: opFcn[o] == Decode(o)
      modifies this, a, b, c, d, e, f, m, s, ext, ram
      ensures Now() == React(old(Now()), ev, ucode[..], twoDigit)
    {
      hide Step;
      match ev
      case Instruction => ExecuteInstruction();
      case Reset => Reset();
      case ClearMemory => ClearRam();
      case Key(code, down) =>
        if down {
          keyBuf := code;
          keyFlag := true;
        } else {
          keyFlag := false;
        }
      case ExternalFlag(number, on) => ext[number] := on;
    }

    /** A run: the processor handles events one after the other, and never leaves its invariant. */
    method Simulate(events: seq<Event>)
      requires Shaped() && Inv(Now()) && forall ev :: ev in events ==> Sensible(ev)
      requires forall o: Word :: opFcn[o] == Decode(o)
      modifies this, a, b, c, d, e, f, m, s, ext, ram
      ensures Run(old(Now()), events, ucode[..], twoDigit) == Some(Now()) && Inv(Now())
    {
      hide React, Decode;
      for i := 0 to |events|
        invariant Inv(Now())
        invariant Run(Now(), events[i..], ucode[..], twoDigit) == Run(old(Now()), events, ucode[..], twoDigit)
      {
        EventKeepsInv(Now(), events[i], ucode[..], twoDigit);
        assert events[i..][0] == events[i] && events[i..][1..] == events[i + 1..];
        Handle(events[i]);
      }
    }
  }
}
