/** The line builder of the Helios printer, src/helios.c: run-length bytes decoded in place into
    columns until the line is full, with the rest kept for the next line. */
module Helios {
  import opened Bytes

  const WIDTH := 168
  const BUF_MAX := 43

  const HS_IDLE := 9
  const HS_BUF_EMPTY := 8
  const HS_LOWER_CASE := 7
  const HS_GRAPHICS := 6
  const HS_DOUBLE_WIDE := 5
  const HS_RIGHT_JUST := 4
  const HS_LAST_BYTE_EOL := 3
  const HS_IGNORE_ADV := 2

  type Mode = m: int | 0 <= m < 8

  predicate LowerCase(m: Mode) { m % 2 == 1 }

  predicate Graphics(m: Mode) { m / 2 % 2 == 1 }

  predicate DoubleWide(m: Mode) { m / 4 == 1 }

  /** The character generator: five columns for each of 128 characters. */
  ghost predicate IsFont(font: seq<seq<Octet>>) {
    |font| == 128 && forall c :: 0 <= c < 128 ==> |font[c]| == 5
  }

  // ---------- what a buffer means ----------

  datatype Token = Data(b: Octet) | Space | Blank | SetMode(m: Mode)

  function Repeat(t: Token, n: nat): (s: seq<Token>)
    ensures |s| == n
  {
    if n == 0 then [] else [t] + Repeat(t, n - 1)
  }

  /** A byte is a character or column, a run of spaces, a run of blank columns, or a mode change. */
  function Expand(b: Octet): seq<Token> {
    if b < 0x80 then [Data(b)]
    else if 0xa0 <= b <= 0xb7 then Repeat(Space, b - 0xa0)
    else if 0xb8 <= b <= 0xbf then Repeat(Blank, b - 0xb8)
    else [SetMode(b % 8)]
  }

  function ExpandAll(buf: seq<Octet>): seq<Token> {
    if |buf| == 0 then [] else Expand(buf[0]) + ExpandAll(buf[1..])
  }

  /** Each column once, or twice when double wide. */
  function Widen(cols: seq<Octet>, wide: bool): (r: seq<Octet>)
    ensures |r| == if wide then 2 * |cols| else |cols|
  {
    if |cols| == 0 then [] else (if wide then [cols[0], cols[0]] else [cols[0]]) + Widen(cols[1..], wide)
  }

  /** Double width shows every column twice, side by side. */
  lemma {:induction false} WidenAt(cols: seq<Octet>, wide: bool, j: nat)
    requires j < if wide then 2 * |cols| else |cols|
    ensures Widen(cols, wide)[j] == cols[if wide then j / 2 else j]
  {
    if j >= if wide then 2 else 1 {
      WidenAt(cols[1..], wide, if wide then j - 2 else j - 1);
    }
  }

  function Glyph(font: seq<seq<Octet>>, c: Octet, m: Mode): (r: seq<Octet>)
    requires IsFont(font) && c < 128
    ensures |r| == if DoubleWide(m) then 14 else 7
  {
    var ch := if LowerCase(m) && 'A' as int <= c <= 'Z' as int then c + 0x20 else c;
    Widen([0] + font[ch] + [0], DoubleWide(m))
  }

  /** The columns of a character: its five between two blank ones, each twice in double width, and the lower
      case letter for a capital one in lower case. */
  lemma GlyphAt(font: seq<seq<Octet>>, c: Octet, m: Mode, j: nat)
    requires IsFont(font) && c < 128 && j < if m >= 4 then 14 else 7
    ensures var ch := if m % 2 == 1 && 65 <= c <= 90 then c + 32 else c;
            var k := if m >= 4 then j / 2 else j;
            Glyph(font, c, m)[j] == if 1 <= k <= 5 then font[ch][k - 1] else 0
  {
    hide Widen;
    var ch: Octet := if m % 2 == 1 && 65 <= c <= 90 then c + 32 else c;
    WidenAt([0] + font[ch] + [0], DoubleWide(m), j);
  }

  /** The columns a token prints. Single columns are doubled by the status bit, characters by the mode. */
  function Columns(font: seq<seq<Octet>>, t: Token, m: Mode, wide: bool): seq<Octet>
    requires IsFont(font) && (t.Data? ==> t.b < 128)
  {
    match t
    case Data(b) => if Graphics(m) then Widen([b], wide) else Glyph(font, b, m)
    case Space => Glyph(font, 0x20, m)
    case Blank => Widen([0], wide)
    case SetMode(_) => []
  }

  /** The room test before a token is printed at column `col`. */
  predicate Room(t: Token, m: Mode, col: nat) {
    match t
    case Data(_) => if Graphics(m) then col + 1 <= WIDTH else col + CharWidth(m) <= WIDTH
    case Space => col + CharWidth(m) <= WIDTH
    case Blank => col + 1 <= WIDTH
    case SetMode(_) => true
  }

  function ModeAfter(t: Token, m: Mode): Mode {
    if t.SetMode? then t.m else m
  }

  function CharWidth(m: Mode): nat {
    if DoubleWide(m) then 14 else 7
  }

  function TokenWidth(t: Token, m: Mode, wide: bool): nat {
    match t
    case Data(_) => if Graphics(m) then (if wide then 2 else 1) else CharWidth(m)
    case Space => CharWidth(m)
    case Blank => if wide then 2 else 1
    case SetMode(_) => 0
  }

  ghost predicate Printable(tokens: seq<Token>) {
    forall i :: 0 <= i < |tokens| ==> tokens[i].Data? ==> tokens[i].b < 128
  }

  /** How many tokens a line takes from column `col` on: one by one, as long as the next one has room. */
  function Taken(tokens: seq<Token>, m: Mode, wide: bool, col: nat): (k: nat)
    ensures k <= |tokens|
  {
    if |tokens| == 0 || !Room(tokens[0], m, col) then 0
    else 1 + Taken(tokens[1..], ModeAfter(tokens[0], m), wide, col + TokenWidth(tokens[0], m, wide))
  }

  /** What the tokens print on paper of unlimited width. */
  function Render(font: seq<seq<Octet>>, tokens: seq<Token>, m: Mode, wide: bool): seq<Octet>
    requires IsFont(font) && Printable(tokens)
  {
    if |tokens| == 0 then []
    else Columns(font, tokens[0], m, wide) + Render(font, tokens[1..], ModeAfter(tokens[0], m), wide)
  }

  function ModeEnd(tokens: seq<Token>, m: Mode): Mode {
    if |tokens| == 0 then m else ModeEnd(tokens[1..], ModeAfter(tokens[0], m))
  }

  lemma {:induction false} RenderAppend(font: seq<seq<Octet>>, a: seq<Token>, b: seq<Token>, m: Mode, wide: bool)
    requires IsFont(font) && Printable(a) && Printable(b)
    ensures Render(font, a + b, m, wide) == Render(font, a, m, wide) + Render(font, b, ModeEnd(a, m), wide)
  {
    if |a| == 0 {
      assert a + b == b;
    } else {
      assert (a + b)[1..] == a[1..] + b;
      RenderAppend(font, a[1..], b, ModeAfter(a[0], m), wide);
    }
  }

  lemma ColumnsWidth(font: seq<seq<Octet>>, t: Token, m: Mode, wide: bool)
    requires IsFont(font) && (t.Data? ==> t.b < 128)
    ensures |Columns(font, t, m, wide)| == TokenWidth(t, m, wide)
  {
  }

  /** A line stays within the paper, except that a doubled single column can take one column too many. */
  lemma {:induction false} LineWidth(font: seq<seq<Octet>>, tokens: seq<Token>, m: Mode, wide: bool, col: nat)
    requires IsFont(font) && Printable(tokens)
    requires col <= WIDTH || (wide && col == WIDTH + 1)
    ensures var n := col + |Render(font, tokens[..Taken(tokens, m, wide, col)], m, wide)|;
            n <= WIDTH || (wide && n == WIDTH + 1)
  {
    if |tokens| > 0 && Room(tokens[0], m, col) {
      ColumnsWidth(font, tokens[0], m, wide);
      var k := Taken(tokens, m, wide, col);
      LineWidth(font, tokens[1..], ModeAfter(tokens[0], m), wide, col + TokenWidth(tokens[0], m, wide));
      assert tokens[..k][1..] == tokens[1..][..k - 1];
    }
  }

  /** The tokens of 23 spaces, four blank columns and the mode byte that makes columns double wide: with
      only the status double wide they take one column too many. */
  lemma LineTooWide(font: seq<seq<Octet>>)
    requires IsFont(font)
    ensures var tokens := ExpandAll([0xb7, 0xbc, 0xd4]);
            && Printable(tokens) && Taken(tokens, 0, true, 0) == |tokens|
            && |Render(font, tokens, 0, true)| == WIDTH + 1
  {
    var blanks := Repeat(Blank, 4);
    var tokens := Repeat(Space, 23) + blanks;
    PrintableBuffer([0xb7, 0xbc, 0xd4]);
    TooWideTokens();
    SpacesTaken(23, 0, true, 0, blanks);
    assert blanks == [Blank, Blank, Blank, Blank];
    BlanksTaken();
    TakenAll(tokens, SetMode(4), 0, true, 0);
    RenderRun(font, Space, 23, blanks);
    assert blanks + [] == blanks;
    RenderRun(font, Blank, 4, []);
    hide Repeat, ExpandAll, Taken, Columns;
    RenderAppend(font, tokens, [SetMode(4)], 0, true);
    RenderOne(font, SetMode(4), ModeEnd(tokens, 0), true);
  }

  lemma TooWideTokens()
    ensures ExpandAll([0xb7, 0xbc, 0xd4]) == Repeat(Space, 23) + Repeat(Blank, 4) + [SetMode(4)]
  {
    hide Repeat;
    SingleToken(0xd4, []);
    ExpandFirst(0xbc, [0xd4]);
    ExpandFirst(0xb7, [0xbc, 0xd4]);
    assert [0xd4] + [] == [0xd4] && [0xbc] + [0xd4] == [0xbc, 0xd4] && [0xb7] + [0xbc, 0xd4] == [0xb7, 0xbc, 0xd4];
    assert [SetMode(4)] + ExpandAll([]) == [SetMode(4)];
  }

  lemma {:induction false} TakenAll(tokens: seq<Token>, t: Token, m: Mode, wide: bool, col: nat)
    requires Taken(tokens, m, wide, col) == |tokens| && t.SetMode?
    ensures Taken(tokens + [t], m, wide, col) == |tokens| + 1
  {
    hide Room, TokenWidth;
    if |tokens| > 0 {
      assert (tokens + [t])[1..] == tokens[1..] + [t];
      TakenAll(tokens[1..], t, ModeAfter(tokens[0], m), wide, col + TokenWidth(tokens[0], m, wide));
    } else {
      assert tokens + [t] == [t];
      RoomForMode(t, m, col);
    }
  }

  lemma RoomForMode(t: Token, m: Mode, col: nat)
    requires t.SetMode?
    ensures Room(t, m, col)
  {
  }

  /** All lines stay on the paper exactly when single columns are not doubled. */
  lemma LineWidthIff(font: seq<seq<Octet>>, wide: bool)
    requires IsFont(font)
    ensures (forall tokens, m: Mode | Printable(tokens) ::
               |Render(font, tokens[..Taken(tokens, m, wide, 0)], m, wide)| <= WIDTH)
            <==> !wide
  {
    hide Render, Taken, ExpandAll, IsFont;
    if wide {
      var tokens := ExpandAll([0xb7, 0xbc, 0xd4]);
      LineTooWide(font);
      assert tokens[..|tokens|] == tokens;
      assert |Render(font, tokens[..Taken(tokens, 0, wide, 0)], 0, wide)| > WIDTH;
    } else {
      forall tokens, m: Mode | Printable(tokens)
        ensures |Render(font, tokens[..Taken(tokens, m, wide, 0)], m, wide)| <= WIDTH
      {
        LineWidth(font, tokens, m, wide, 0);
      }
    }
  }

  lemma {:induction false} RenderRun(font: seq<seq<Octet>>, t: Token, n: nat, rest: seq<Token>)
    requires IsFont(font) && (t.Space? || t.Blank?) && Printable(rest)
    ensures Printable(Repeat(t, n) + rest)
    ensures |Render(font, Repeat(t, n) + rest, 0, true)|
            == (if t.Space? then 7 * n else 2 * n) + |Render(font, rest, 0, true)|
  {
    RepeatTokens(t, n);
    if n == 0 {
      assert Repeat(t, 0) + rest == rest;
    } else {
      assert (Repeat(t, n) + rest)[1..] == Repeat(t, n - 1) + rest;
      RenderRun(font, t, n - 1, rest);
      ColumnsWidth(font, t, 0, true);
    }
  }

  lemma BlanksTaken()
    ensures Taken([Blank, Blank, Blank, Blank], 0, true, 161) == 4
  {
    var b := [Blank];
    assert Taken(b, 0, true, 167) == 1;
    assert (b + b)[1..] == b;
    assert Taken(b + b, 0, true, 165) == 2;
    assert (b + b + b)[1..] == b + b;
    assert Taken(b + b + b, 0, true, 163) == 3;
    assert [Blank, Blank, Blank, Blank][1..] == b + b + b;
  }

  /** The width of n spaces. */
  function RunWidth(n: nat, m: Mode): nat {
    if DoubleWide(m) then 14 * n else 7 * n
  }

  lemma {:induction false} SpacesTaken(n: nat, m: Mode, wide: bool, col: nat, rest: seq<Token>)
    requires col + RunWidth(n, m) <= WIDTH
    ensures Taken(Repeat(Space, n) + rest, m, wide, col) == n + Taken(rest, m, wide, col + RunWidth(n, m))
  {
    if n == 0 {
      assert Repeat(Space, 0) + rest == rest;
    } else {
      assert (Repeat(Space, n) + rest)[1..] == Repeat(Space, n - 1) + rest;
      SpacesTaken(n - 1, m, wide, col + CharWidth(m), rest);
    }
  }

  lemma {:induction false} BlankRunTaken(n: nat, m: Mode, wide: bool, col: nat, rest: seq<Token>)
    requires col + 2 * n <= WIDTH
    ensures Taken(Repeat(Blank, n) + rest, m, wide, col) >= n
  {
    if n > 0 {
      assert (Repeat(Blank, n) + rest)[1..] == Repeat(Blank, n - 1) + rest;
      BlankRunTaken(n - 1, m, wide, col + TokenWidth(Blank, m, wide), rest);
    }
  }

  /** A byte that no empty line can hold: a run of more than twelve double-wide spaces. */
  predicate TooWideForALine(b: Octet, m: Mode) {
    DoubleWide(m) && 0xad <= b <= 0xb7
  }

  /** An empty line takes the whole of the first byte, but for the one kind that is too wide. */
  lemma FirstByteTaken(b: Octet, rest: seq<Token>, m: Mode, wide: bool)
    ensures Taken(Expand(b) + rest, m, wide, 0) >= |Expand(b)| <==> !TooWideForALine(b, m)
  {
    if 0xa0 <= b <= 0xb7 {
      var n := b - 0xa0;
      if TooWideForALine(b, m) {
        var more := Repeat(Space, n - 12) + rest;
        RepeatSplit(Space, 12, n - 12);
        assert Repeat(Space, n) + rest == Repeat(Space, 12) + more;
        SpacesTaken(12, m, wide, 0, more);
        assert !Room(more[0], m, 168);
      } else {
        SpacesTaken(n, m, wide, 0, rest);
      }
    } else if 0xb8 <= b <= 0xbf {
      BlankRunTaken(b - 0xb8, m, wide, 0, rest);
    } else {
      assert Room(Expand(b)[0], m, 0);
    }
  }

  lemma {:induction false} RepeatSplit(t: Token, a: nat, b: nat)
    ensures Repeat(t, a + b) == Repeat(t, a) + Repeat(t, b)
  {
    if a > 0 {
      RepeatSplit(t, a - 1, b);
    }
  }

  lemma {:induction false} PrintableBuffer(buf: seq<Octet>)
    ensures Printable(ExpandAll(buf))
  {
    if |buf| > 0 {
      PrintableBuffer(buf[1..]);
      PrintableByte(buf[0]);
    }
  }

  lemma PrintableByte(b: Octet)
    ensures Printable(Expand(b))
  {
    if 0xa0 <= b <= 0xb7 {
      RepeatTokens(Space, b - 0xa0);
    } else if 0xb8 <= b <= 0xbf {
      RepeatTokens(Blank, b - 0xb8);
    }
  }

  lemma {:induction false} RepeatTokens(t: Token, n: nat)
    ensures forall i :: 0 <= i < n ==> Repeat(t, n)[i] == t
  {
    if n > 0 {
      RepeatTokens(t, n - 1);
    }
  }

  /** No byte is a run that double-wide mode could make wider than a line. */
  ghost predicate NoLongRuns(bytes: seq<Octet>) {
    forall i :: 0 <= i < |bytes| ==> !(0xad <= bytes[i] <= 0xb7)
  }

  // ---------- what a flush keeps ----------

  /** Whether a byte is a run with something left in it. */
  predicate IsRun(b: Octet) {
    0xa0 < b <= 0xb7 || 0xb8 < b <= 0xbf
  }

  predicate IsEmptyRun(b: Octet) {
    b == 0xa0 || b == 0xb8
  }

  /** The first token of a byte that is not an empty run, and the bytes without it. */
  function FirstOf(b: Octet): Token
    requires !IsEmptyRun(b)
  {
    if b < 0x80 then Data(b) else if 0xa0 < b <= 0xb7 then Space else if 0xb8 < b <= 0xbf then Blank else SetMode(b % 8)
  }

  function Shorter(bytes: seq<Octet>): seq<Octet>
    requires |bytes| > 0
  {
    if IsRun(bytes[0]) then [bytes[0] - 1] + bytes[1..] else bytes[1..]
  }

  /** The bytes kept when a line takes what has room from column `col` on. */
  function Rest(bytes: seq<Octet>, m: Mode, wide: bool, col: nat): (r: seq<Octet>)
    ensures |r| <= |bytes|
    decreases |bytes|, if |bytes| == 0 then 0 else bytes[0]
  {
    if |bytes| == 0 then []
    else if IsEmptyRun(bytes[0]) then Rest(bytes[1..], m, wide, col)
    else
      var t := FirstOf(bytes[0]);
      if !Room(t, m, col) then bytes
      else Rest(Shorter(bytes), ModeAfter(t, m), wide, col + TokenWidth(t, m, wide))
  }

  lemma RestStep(bytes: seq<Octet>, m: Mode, wide: bool, col: nat)
    requires |bytes| > 0
    ensures Rest(bytes, m, wide, col)
            == if IsEmptyRun(bytes[0]) then Rest(Shorter(bytes), m, wide, col)
               else
                 var t := FirstOf(bytes[0]);
                 if Room(t, m, col) then Rest(Shorter(bytes), ModeAfter(t, m), wide, col + TokenWidth(t, m, wide))
                 else bytes
  {
    hide Room;
  }

  lemma ShorterTokens(bytes: seq<Octet>)
    requires |bytes| > 0
    ensures if IsEmptyRun(bytes[0]) then ExpandAll(bytes) == ExpandAll(bytes[1..])
            else ExpandAll(bytes) == [FirstOf(bytes[0])] + ExpandAll(Shorter(bytes))
  {
    var b, later := bytes[0], bytes[1..];
    assert bytes == [b] + later;
    hide ExpandAll;
    if IsEmptyRun(b) {
      EmptyRun(b, later);
    } else if IsRun(b) {
      ShorterRun(b, later);
    } else {
      SingleToken(b, later);
    }
  }

  /** The bytes kept stand for exactly the tokens not taken. */
  lemma {:induction false} RestTokens(bytes: seq<Octet>, m: Mode, wide: bool, col: nat)
    ensures var all := ExpandAll(bytes); ExpandAll(Rest(bytes, m, wide, col)) == all[Taken(all, m, wide, col)..]
    decreases |bytes|, if |bytes| == 0 then 0 else bytes[0]
  {
    hide ExpandAll, Room, Rest, FirstOf, Taken, TokenWidth, ModeAfter;
    var all := ExpandAll(bytes);
    if |bytes| == 0 {
      NothingKept(m, wide, col);
    } else {
      ShorterTokens(bytes);
      RestStep(bytes, m, wide, col);
      if IsEmptyRun(bytes[0]) {
        RestTokens(bytes[1..], m, wide, col);
      } else {
        var t := FirstOf(bytes[0]);
        assert all[1..] == ExpandAll(Shorter(bytes));
        TakenFirst(all, m, wide, col);
        if Room(t, m, col) {
          var next := col + TokenWidth(t, m, wide);
          RestTokens(Shorter(bytes), ModeAfter(t, m), wide, next);
          var n := Taken(all[1..], ModeAfter(t, m), wide, next);
          assert all[1..][n..] == all[n + 1..];
        }
      }
    }
  }

  lemma NothingKept(m: Mode, wide: bool, col: nat)
    ensures Rest([], m, wide, col) == [] && ExpandAll([]) == [] && Taken(ExpandAll([]), m, wide, col) == 0
  {
  }

  /** A run and what may be left of it. */
  predicate LeftOf(r: Octet, b: Octet) {
    r == b || (IsRun(r) && IsRun(b) && r < b && (r <= 0xb7 <==> b <= 0xb7))
  }

  predicate EndOf(r: seq<Octet>, bytes: seq<Octet>) {
    r == []
    || (|r| <= |bytes| && r[1..] == bytes[|bytes| - |r| + 1..] && LeftOf(r[0], bytes[|bytes| - |r|]))
  }

  lemma EndOfTail(r: seq<Octet>, bytes: seq<Octet>)
    requires |bytes| > 0 && EndOf(r, bytes[1..])
    ensures EndOf(r, bytes)
  {
    hide LeftOf;
    if r != [] {
      assert bytes[1..][|bytes| - 1 - |r| + 1..] == bytes[|bytes| - |r| + 1..];
    }
  }

  lemma EndOfRun(r: seq<Octet>, bytes: seq<Octet>)
    requires |bytes| > 0 && IsRun(bytes[0]) && EndOf(r, Shorter(bytes)) && (r != [] ==> !IsEmptyRun(r[0]))
    ensures EndOf(r, bytes)
  {
    LeftOfShorter(bytes);
    hide LeftOf;
    if r != [] {
      assert Shorter(bytes)[|bytes| - |r| + 1..] == bytes[|bytes| - |r| + 1..];
    }
  }

  /** What is kept is the end of what there was, with a run at its front perhaps shorter. */
  lemma {:induction false} RestIsEnd(bytes: seq<Octet>, m: Mode, wide: bool, col: nat)
    ensures EndOf(Rest(bytes, m, wide, col), bytes)
    decreases |bytes|, if |bytes| == 0 then 0 else bytes[0]
  {
    hide Room, LeftOf, Rest, FirstOf, TokenWidth, ModeAfter, EndOf;
    if |bytes| == 0 {
      NothingKept(m, wide, col);
      EndOfSame(bytes);
    } else {
      EndOfSame(bytes);
      RestStep(bytes, m, wide, col);
      if IsEmptyRun(bytes[0]) {
        RestIsEnd(bytes[1..], m, wide, col);
        EndOfTail(Rest(bytes[1..], m, wide, col), bytes);
      } else {
        var t := FirstOf(bytes[0]);
        if Room(t, m, col) {
          var n, next := ModeAfter(t, m), col + TokenWidth(t, m, wide);
          RestIsEnd(Shorter(bytes), n, wide, next);
          RestKeepsTokens(Shorter(bytes), n, wide, next);
          if IsRun(bytes[0]) {
            EndOfRun(Rest(Shorter(bytes), n, wide, next), bytes);
          } else {
            EndOfTail(Rest(Shorter(bytes), n, wide, next), bytes);
          }
        }
      }
    }
  }

  lemma EndOfSame(bytes: seq<Octet>)
    ensures EndOf(bytes, bytes)
  {
  }

  lemma LeftOfShorter(bytes: seq<Octet>)
    requires |bytes| > 0
    ensures LeftOf(bytes[0], bytes[0])
    ensures IsRun(bytes[0]) ==> forall r: Octet | !IsEmptyRun(r) && LeftOf(r, bytes[0] - 1) :: LeftOf(r, bytes[0])
  {
  }

  lemma {:induction false} RestKeepsTokens(bytes: seq<Octet>, m: Mode, wide: bool, col: nat)
    ensures var r := Rest(bytes, m, wide, col); r != [] ==> !IsEmptyRun(r[0])
    decreases |bytes|, if |bytes| == 0 then 0 else bytes[0]
  {
    if |bytes| > 0 {
      hide Room;
      if IsEmptyRun(bytes[0]) {
        RestKeepsTokens(bytes[1..], m, wide, col);
      } else {
        var t := FirstOf(bytes[0]);
        if Room(t, m, col) {
          RestKeepsTokens(Shorter(bytes), ModeAfter(t, m), wide, col + TokenWidth(t, m, wide));
        }
      }
    }
  }

  /** The first byte is gone exactly if all its tokens are taken. */
  lemma {:induction false} WholeByteTaken(bytes: seq<Octet>, m: Mode, wide: bool, col: nat)
    requires |bytes| > 0
    ensures |Rest(bytes, m, wide, col)| < |bytes| <==> Taken(ExpandAll(bytes), m, wide, col) >= |Expand(bytes[0])|
    decreases bytes[0]
  {
    var b, later := bytes[0], bytes[1..];
    assert bytes == [b] + later;
    ShorterTokens(bytes);
    hide ExpandAll, Room;
    if IsEmptyRun(b) {
      EmptyRun(b, later);
    } else {
      var t, all := FirstOf(b), ExpandAll(bytes);
      assert all[1..] == ExpandAll(Shorter(bytes));
      TakenFirst(all, m, wide, col);
      if IsRun(b) {
        ShorterRun(b, later);
        if Room(t, m, col) {
          WholeByteTaken(Shorter(bytes), m, wide, col + TokenWidth(t, m, wide));
        }
      } else {
        SingleToken(b, later);
      }
    }
  }

  /** A new line takes the first byte, but for the one kind that is too wide. */
  lemma RestShorter(bytes: seq<Octet>, m: Mode, wide: bool)
    requires |bytes| > 0
    ensures |Rest(bytes, m, wide, 0)| < |bytes| <==> !TooWideForALine(bytes[0], m)
  {
    WholeByteTaken(bytes, m, wide, 0);
    hide Rest, Taken;
    FirstByteTaken(bytes[0], ExpandAll(bytes[1..]), m, wide);
  }

  lemma RestNoLongRuns(bytes: seq<Octet>, m: Mode, wide: bool, col: nat)
    requires NoLongRuns(bytes)
    ensures NoLongRuns(Rest(bytes, m, wide, col))
  {
    RestIsEnd(bytes, m, wide, col);
    var r := Rest(bytes, m, wide, col);
    hide Rest;
    forall j | 0 <= j < |r| ensures !(0xad <= r[j] <= 0xb7) {
      if j > 0 {
        assert r[j] == r[1..][j - 1] == bytes[|bytes| - |r| + j];
      }
    }
  }

  // ---------- the printer ----------

  /** The paper line: the columns from the left, or against the right margin. */
  function PaperLine(cols: seq<Octet>, rightJustify: bool): (r: seq<Octet>)
    ensures |r| == WIDTH
  {
    if |cols| >= WIDTH then cols[..WIDTH]
    else
      var margin := seq(WIDTH - |cols|, _ => 0);
      if rightJustify then margin + cols else cols + margin
  }

  /** Column by column: what is printed stands at the left edge or at the right one, the rest is blank, and a
      column that does not fit is cut off. */
  lemma PaperColumns(cols: seq<Octet>, right: bool, i: nat)
    requires i < WIDTH
    ensures var start := if right && |cols| < WIDTH then WIDTH - |cols| else 0;
            PaperLine(cols, right)[i] == if start <= i < start + |cols| then cols[i - start] else 0
  {
  }

  /** What the printer keeps between two bytes: the status bits, the mode its buffer starts in, and the
      buffer. */
  datatype State = State(status: set<nat>, mode: Mode, buf: seq<Octet>) {
    predicate Wide() { HS_DOUBLE_WIDE in status }

    function Tokens(): (t: seq<Token>)
      ensures Printable(t)
    {
      PrintableBuffer(buf);
      ExpandAll(buf)
    }
  }

  function WithBit(status: set<nat>, bit: nat, val: bool): set<nat> {
    if val then status + {bit} else status - {bit}
  }

  function WithMode(status: set<nat>, m: Mode): set<nat> {
    var wide := WithBit(status, HS_DOUBLE_WIDE, DoubleWide(m));
    WithBit(WithBit(wide, HS_GRAPHICS, Graphics(m)), HS_LOWER_CASE, LowerCase(m))
  }

  function Appended(s: State, byte: Octet): State {
    if s.buf == [] then State(s.status - {HS_BUF_EMPTY}, StatusMode(s.status), [byte])
    else s.(buf := s.buf + [byte])
  }

  function Flushed(font: seq<seq<Octet>>, s: State, right: bool): (State, seq<Octet>)
    requires IsFont(font)
  {
    var all, kept := s.Tokens(), Rest(s.buf, s.mode, s.Wide(), 0);
    (State(if kept == [] then s.status + {HS_BUF_EMPTY} else s.status, s.mode, kept),
     PaperLine(Render(font, all[..Taken(all, s.mode, s.Wide(), 0)], s.mode, s.Wide()), right))
  }

  /** The state after a reset, which leaves the mode of the buffer alone. */
  function AfterReset(m: Mode): State {
    State({HS_IDLE, HS_BUF_EMPTY}, m, [])
  }

  predicate IsEol(byte: Octet) {
    byte == 0xe0 || byte == 0xe8
  }

  /** A byte that goes into the buffer, before the buffer is looked at. */
  function Buffered(s: State, byte: Octet): State {
    var a := Appended(s.(status := WithBit(s.status, HS_LAST_BYTE_EOL, false)), byte);
    if byte >= 0xd0 then a.(status := WithMode(a.status, byte % 8)) else a
  }

  /** A byte that is to be stored has a place in the buffer. */
  predicate HasPlace(s: State, byte: Octet) {
    byte <= 0xdf ==> |s.buf| < BUF_MAX
  }

  /** One byte from the calculator: the new state and what is printed. */
  function Written(font: seq<seq<Octet>>, s: State, byte: Octet): (r: (State, seq<seq<Octet>>))
    requires IsFont(font) && HasPlace(s, byte)
  {
    if byte <= 0xdf then
      var b := Buffered(s, byte);
      if |b.buf| == BUF_MAX then
        var (t, paper) := Flushed(font, b, HS_RIGHT_JUST in b.status);
        (t, [paper])
      else (b, [])
    else
      var b := s.(status := WithBit(s.status, HS_LAST_BYTE_EOL, IsEol(byte)));
      if IsEol(byte) then
        var (t, paper) := Flushed(font, b, byte == 0xe8);
        (t, [paper])
      else (if byte >= 0xfe then b.(status := WithBit(b.status, HS_IGNORE_ADV, byte % 2 == 1)) else b, [])
  }

  /** A flush keeps exactly the tokens it has not printed, and is shorter of a byte exactly unless the first
      one is wider than a line. */
  lemma FlushedMeans(font: seq<seq<Octet>>, s: State, right: bool)
    requires IsFont(font)
    ensures var (t, paper) := Flushed(font, s, right);
            var k := Taken(s.Tokens(), s.mode, s.Wide(), 0);
            && t.Tokens() == s.Tokens()[k..] && t.mode == s.mode && t.Wide() == s.Wide()
            && paper == PaperLine(Render(font, s.Tokens()[..k], s.mode, s.Wide()), right)
            && |t.buf| <= |s.buf| && (|s.buf| > 0 ==> (|t.buf| < |s.buf| <==> !TooWideForALine(s.buf[0], s.mode)))
            && (NoLongRuns(s.buf) ==> NoLongRuns(t.buf))
  {
    hide Rest, TooWideForALine, NoLongRuns, ExpandAll, Taken, Render, PaperLine;
    RestTokens(s.buf, s.mode, s.Wide(), 0);
    if |s.buf| > 0 {
      RestShorter(s.buf, s.mode, s.Wide());
    }
    if NoLongRuns(s.buf) {
      RestNoLongRuns(s.buf, s.mode, s.Wide(), 0);
    }
  }

  lemma AppendedMeans(s: State, byte: Octet)
    ensures var b := Buffered(s, byte);
            && b.buf == s.buf + [byte] && b.mode == (if s.buf == [] then StatusMode(s.status) else s.mode)
            && b.Tokens() == s.Tokens() + Expand(byte) && (HS_RIGHT_JUST in b.status <==> HS_RIGHT_JUST in s.status)
            && b.Wide() == (if byte >= 0xd0 then DoubleWide(byte % 8) else s.Wide())
  {
    assert [] + [byte] == [byte];
    ExpandSnoc(s.buf, byte);
    hide ExpandAll, Expand;
  }

  /** What a byte does to the mode, to the tokens buffered and to the paper, and when it leaves no place for
      another one. */
  lemma WrittenMeans(font: seq<seq<Octet>>, s: State, byte: Octet)
    requires IsFont(font) && HasPlace(s, byte)
    ensures var (t, papers) := Written(font, s, byte);
            var buffered := byte <= 0xdf;
            var m := if buffered && s.buf == [] then StatusMode(s.status) else s.mode;
            var all := if buffered then s.Tokens() + Expand(byte) else s.Tokens();
            var flush := IsEol(byte) || (buffered && |s.buf| == BUF_MAX - 1);
            && t.mode == m && Printable(all)
            && t.Wide() == (if 0xd0 <= byte <= 0xdf then DoubleWide(byte % 8) else s.Wide())
            && (!flush ==> papers == [] && t.Tokens() == all && t.buf == if buffered then s.buf + [byte] else s.buf)
            && (flush ==>
                  var k := Taken(all, m, t.Wide(), 0);
                  var right := if buffered then HS_RIGHT_JUST in s.status else byte == 0xe8;
                  t.Tokens() == all[k..] && papers == [PaperLine(Render(font, all[..k], m, t.Wide()), right)])
    ensures var (t, _) := Written(font, s, byte);
            byte <= 0xdf ==>
              (|t.buf| == BUF_MAX <==> |s.buf| == BUF_MAX - 1 && TooWideForALine((s.buf + [byte])[0], t.mode))
  {
    hide Buffered, Flushed, Expand, Rest, ExpandAll, Render, Taken, PaperLine, TooWideForALine, NoLongRuns;
    hide StatusMode, State.Tokens, IsFont;
    AppendedMeans(s, byte);
    var b := if byte <= 0xdf then Buffered(s, byte) else s.(status := WithBit(s.status, HS_LAST_BYTE_EOL, IsEol(byte)));
    SameTokens(s, b);
    SameTokens(b, Written(font, s, byte).0);
    FlushedMeans(font, b, if byte <= 0xdf then HS_RIGHT_JUST in b.status else byte == 0xe8);
  }

  /** The status tells whether the buffer is empty and whether an end of line came last, and keeps what no
      byte changes. */
  lemma StatusTells(font: seq<seq<Octet>>, s: State, byte: Octet)
    requires IsFont(font) && HasPlace(s, byte)
    ensures var t := Written(font, s, byte).0;
            && ((HS_BUF_EMPTY in s.status <==> s.buf == []) ==> (HS_BUF_EMPTY in t.status <==> t.buf == []))
            && (HS_LAST_BYTE_EOL in t.status <==> byte == 0xe0 || byte == 0xe8)
            && (HS_IGNORE_ADV in t.status <==> byte == 0xff || (byte != 0xfe && HS_IGNORE_ADV in s.status))
            && (HS_RIGHT_JUST in t.status <==> HS_RIGHT_JUST in s.status)
            && (HS_IDLE in t.status <==> HS_IDLE in s.status)
            && StatusMode(t.status) == if 0xd0 <= byte <= 0xdf then byte % 8 else StatusMode(s.status)
  {
    hide Rest, Taken, Render, PaperLine, ExpandAll, IsFont;
    if 0xd0 <= byte <= 0xdf {
      ModeBits(byte % 8);
    }
  }

  lemma SameTokens(s: State, t: State)
    ensures s.buf == t.buf ==> s.Tokens() == t.Tokens()
  {
  }

  class Printer {
    const font: seq<seq<Octet>>
    var status: set<nat>
    var mode: Mode
    var count: nat
    const buffer: array<Octet>

    ghost predicate Valid()
      reads this
    {
      IsFont(font) && buffer.Length == BUF_MAX && count <= BUF_MAX
    }

    ghost function Tokens(): (t: seq<Token>)
      requires Valid()
      reads this, buffer
      ensures Printable(t)
    {
      PrintableBuffer(buffer[..count]);
      ExpandAll(buffer[..count])
    }

    ghost predicate Wide()
      reads this
    {
      HS_DOUBLE_WIDE in status
    }

    ghost function Now(): State
      requires Valid()
      reads this, buffer
    {
      State(status, mode, buffer[..count])
    }

    /** helios_reset. */
    method Reset()
      requires Valid()
      modifies this`count, this`status
      ensures Valid() && Now() == AfterReset(old(mode))
    {
      status := {};
      count := 0;
      SetStatusBit(HS_IDLE, true);
      SetStatusBit(HS_BUF_EMPTY, true);
    }

    /** helios_add_column. The line has one element past the paper, where a doubled last column lands. */
    method AddColumn(line: array<Octet>, colIdx: nat, col: Octet) returns (ok: bool, newIdx: nat)
      requires line.Length == WIDTH + 1 && colIdx <= WIDTH + 1
      modifies line
      ensures ok == (colIdx + 1 <= WIDTH)
      ensures if ok then newIdx == colIdx + |Widen([col], Wide())| <= WIDTH + 1
                         && line[..newIdx] == old(line[..colIdx]) + Widen([col], Wide())
                         && (forall i :: newIdx <= i < line.Length ==> line[i] == old(line[i]))
              else newIdx == colIdx && line[..] == old(line[..])
    {
      newIdx := colIdx;
      if newIdx + 1 > WIDTH {
        return false, newIdx;
      }
      assert Widen([col], Wide()) == if Wide() then [col, col] else [col];
      line[newIdx] := col;
      newIdx := newIdx + 1;
      if HS_DOUBLE_WIDE in status {
        line[newIdx] := col;
        newIdx := newIdx + 1;
      }
      ok := true;
    }

    /** helios_add_char. */
    method AddChar(line: array<Octet>, colIdx: nat, c0: Octet, m: Mode) returns (ok: bool, newIdx: nat)
      requires IsFont(font) && c0 < 128 && line.Length == WIDTH + 1 && colIdx <= WIDTH + 1
      modifies line
      ensures ok == (colIdx + CharWidth(m) <= WIDTH)
      ensures if ok then newIdx == colIdx + CharWidth(m) <= WIDTH
                         && line[..newIdx] == old(line[..colIdx]) + Glyph(font, c0, m)
                         && (forall i :: newIdx <= i < line.Length ==> line[i] == old(line[i]))
              else newIdx == colIdx && line[..] == old(line[..])
    {
      newIdx := colIdx;
      if newIdx + (if DoubleWide(m) then 14 else 7) > WIDTH {
        return false, newIdx;
      }
      var c := c0;
      if LowerCase(m) && 'A' as int <= c <= 'Z' as int {
        c := c + 0x20;
      }
      newIdx := PutGlyph(line, newIdx, font[c], DoubleWide(m));
      ok := true;
    }

    /** A blank column, the five of the character, and another blank one. */
    method PutGlyph(line: array<Octet>, colIdx: nat, cols: seq<Octet>, wide: bool) returns (newIdx: nat)
      requires |cols| == 5 && colIdx + (if wide then 14 else 7) <= line.Length
      modifies line
      ensures newIdx == colIdx + (if wide then 14 else 7)
      ensures line[..newIdx] == old(line[..colIdx]) + Widen([0] + cols + [0], wide)
      ensures forall i :: newIdx <= i < line.Length ==> line[i] == old(line[i])
    {
      hide Widen;
      ghost var cells := [0] + cols + [0];
      newIdx := Put(line, colIdx, 0, wide);
      assert cells[..1] == [0];
      for col := 0 to 5
        invariant newIdx == colIdx + |Widen(cells[..col + 1], wide)|
        invariant line[..newIdx] == old(line[..colIdx]) + Widen(cells[..col + 1], wide)
        invariant forall i :: newIdx <= i < line.Length ==> line[i] == old(line[i])
      {
        ghost var done := Widen(cells[..col + 1], wide);
        assert cells[col + 1] == cols[col];
        newIdx := Put(line, newIdx, cols[col], wide);
        WidenSnoc(cells, col + 1, wide);
        Regroup(old(line[..colIdx]), done, Widen([cols[col]], wide));
      }
      ghost var done := Widen(cells[..6], wide);
      assert cells[6] == 0;
      newIdx := Put(line, newIdx, 0, wide);
      WidenSnoc(cells, 6, wide);
      assert cells[..7] == cells;
      Regroup(old(line[..colIdx]), done, Widen([0], wide));
    }

    lemma Regroup(before: seq<Octet>, done: seq<Octet>, next: seq<Octet>)
      ensures before + done + next == before + (done + next)
    {
    }

    method Put(line: array<Octet>, colIdx: nat, col: Octet, wide: bool) returns (newIdx: nat)
      requires colIdx + (if wide then 2 else 1) <= line.Length
      modifies line
      ensures newIdx == colIdx + |Widen([col], wide)| == colIdx + (if wide then 2 else 1)
      ensures line[..newIdx] == old(line[..colIdx]) + Widen([col], wide)
      ensures forall i :: newIdx <= i < line.Length ==> line[i] == old(line[i])
    {
      assert Widen([col], wide) == if wide then [col, col] else [col];
      newIdx := colIdx;
      line[newIdx] := col;
      newIdx := newIdx + 1;
      if wide {
        line[newIdx] := col;
        newIdx := newIdx + 1;
      }
    }

    /** helios_eol: fill one line from the buffer, decrementing run bytes in place, and keep the rest. */
    method Eol(rightJustify: bool) returns (paper: seq<Octet>)
      requires Valid()
      modifies this`count, this`status, buffer
      ensures Valid()
      ensures (Now(), paper) == Flushed(font, old(Now()), rightJustify)
    {
      hide Render, Taken, ExpandAll, PaperLine, Rest;
      var line := new Octet[WIDTH + 1](_ => 0);
      var colIdx, bufIdx;
      colIdx, bufIdx := FillLine(line);
      paper := Justify(line, colIdx, rightJustify);
      if bufIdx != count {
        Shift(bufIdx);
      } else {
        assert buffer[..0] == buffer[bufIdx..count];
      }
      count := count - bufIdx;
      if count == 0 {
        status := status + {HS_BUF_EMPTY};
      }
    }

    method Justify(line: array<Octet>, colIdx: nat, rightJustify: bool) returns (paper: seq<Octet>)
      requires line.Length == WIDTH + 1 && colIdx <= WIDTH + 1 && forall i :: colIdx <= i <= WIDTH ==> line[i] == 0
      ensures paper == PaperLine(line[..colIdx], rightJustify) && |paper| == WIDTH
      ensures !rightJustify || colIdx >= WIDTH ==> forall i :: 0 <= i < WIDTH ==> paper[i] == line[i]
      ensures rightJustify && colIdx < WIDTH
              ==> forall i :: 0 <= i < WIDTH ==>
                    paper[i] == if i < WIDTH - colIdx then 0 else line[i - (WIDTH - colIdx)]
    {
      paper := line[..WIDTH];
      if rightJustify && colIdx < WIDTH {
        paper := line[colIdx..WIDTH] + line[..colIdx];
      }
    }

    method SetStatusBit(bit: nat, val: bool)
      modifies this`status
      ensures status == WithBit(old(status), bit, val)
    {
      status := if val then status + {bit} else status - {bit};
    }

    /** helios_set_mode. */
    method SetPrintMode(m: Mode)
      modifies this`status
      ensures StatusMode(status) == m && status == WithMode(old(status), m)
      ensures status - {HS_DOUBLE_WIDE, HS_GRAPHICS, HS_LOWER_CASE}
              == old(status) - {HS_DOUBLE_WIDE, HS_GRAPHICS, HS_LOWER_CASE}
    {
      SetStatusBit(HS_DOUBLE_WIDE, DoubleWide(m));
      SetStatusBit(HS_GRAPHICS, Graphics(m));
      SetStatusBit(HS_LOWER_CASE, LowerCase(m));
      ModeBits(m);
    }

    /** A byte at the end of the buffer; the first one fixes the mode the line starts in. */
    method Append(byte: Octet)
      requires Valid() && count < BUF_MAX
      modifies this`count, this`status, this`mode, buffer
      ensures Valid() && count == old(count) + 1 && buffer[..count] == old(buffer[..count]) + [byte]
      ensures mode == if old(count) == 0 then StatusMode(old(status)) else old(mode)
      ensures Now() == Appended(old(Now()), byte)
      ensures Tokens() == old(Tokens()) + Expand(byte)
    {
      if count == 0 {
        mode := StatusMode(status);
        SetStatusBit(HS_BUF_EMPTY, false);
      }
      buffer[count] := byte;
      count := count + 1;
      assert buffer[..count] == old(buffer[..count]) + [byte];
      ExpandSnoc(old(buffer[..count]), byte);
    }

    /** helios_npic_write: one byte from the calculator. Prints at most one line. A byte to be stored must
        have a place; after it there is one for another except after one kind of flush. */
    method NpicWrite(byte: Octet) returns (papers: seq<seq<Octet>>)
      requires Valid() && HasPlace(Now(), byte)
      modifies this`count, this`status, this`mode, buffer
      ensures Valid()
      ensures (Now(), papers) == Written(font, old(Now()), byte)
    {
      hide Flushed, WithBit, WithMode, Appended;
      papers := [];
      var eol := byte == 0xe0 || byte == 0xe8;
      var rightJust := byte / 8 % 2 == 1;
      SetStatusBit(HS_LAST_BYTE_EOL, eol);
      if byte <= 0xdf {
        Append(byte);
        if byte >= 0xd0 {
          SetPrintMode(byte % 8);
        }
        if count == BUF_MAX {
          eol := true;
          rightJust := HS_RIGHT_JUST in status;
        }
        if eol {
          var p := Eol(rightJust);
          papers := [p];
        }
      } else if eol {
        var p := Eol(rightJust);
        papers := [p];
      } else if byte >= 0xfe {
        SetStatusBit(HS_IGNORE_ADV, byte % 2 == 1);
      }
    }

    /** memmove of what is left to the front of the buffer. */
    method Shift(bufIdx: nat)
      requires Valid() && bufIdx <= count
      modifies buffer
      ensures buffer[..count - bufIdx] == old(buffer[bufIdx..count])
    {
      for i := 0 to count - bufIdx
        invariant buffer[..i] == old(buffer[bufIdx..bufIdx + i])
        invariant buffer[i..] == old(buffer[i..])
      {
        buffer[i] := buffer[bufIdx + i];
      }
    }

    /** The decoding loop. */
    method FillLine(line: array<Octet>) returns (colIdx: nat, bufIdx: nat)
      requires Valid() && line != buffer && line.Length == WIDTH + 1 && forall i :: 0 <= i <= WIDTH ==> line[i] == 0
      modifies buffer, line
      ensures bufIdx <= count && colIdx <= WIDTH + 1
      ensures buffer[bufIdx..count] == old(Rest(buffer[..count], mode, Wide(), 0))
      ensures line[..colIdx] == old(Render(font, Tokens()[..Taken(Tokens(), mode, Wide(), 0)], mode, Wide()))
      ensures forall i :: colIdx <= i <= WIDTH ==> line[i] == 0
    {
      hide Rest, Progress, Shorter, Room, Taken, Render, ExpandAll, TokenWidth, FirstOf, IsFont;
      ghost var all, rest := Tokens(), Rest(buffer[..count], mode, Wide(), 0);
      ghost var used := 0;
      var m := mode;
      colIdx, bufIdx := 0, 0;
      var go := true;
      StartLine(all, buffer[..count]);
      while bufIdx < count && go
        invariant bufIdx <= count && colIdx <= WIDTH + 1
        invariant Progress(all, used, m, buffer[bufIdx..count], line[..colIdx])
        invariant forall i :: colIdx <= i <= WIDTH ==> line[i] == 0
        invariant Rest(buffer[bufIdx..count], m, Wide(), colIdx) == rest
        invariant !go ==> used == Taken(all, mode, Wide(), 0) && buffer[bufIdx..count] == rest
        decreases go, count - bufIdx, if bufIdx < count then buffer[bufIdx] else 0
      {
        ghost var bytes := buffer[bufIdx..count];
        assert bytes[0] == buffer[bufIdx];
        RestStep(bytes, m, Wide(), colIdx);
        go, colIdx, bufIdx, m, used := Step(line, colIdx, bufIdx, m, all, used);
        assert !go ==> buffer[bufIdx..count] == bytes;
      }
      EndLine(all, used, m, buffer[bufIdx..count], line[..colIdx]);
      EndRest(m, Wide(), colIdx);
      assert bufIdx == count ==> buffer[bufIdx..count] == [];
    }

    lemma EndRest(m: Mode, wide: bool, col: nat)
      ensures Rest([], m, wide, col) == []
    {
    }

    /** The loop body; `go` is false when the next token has no room. */
    method Step(line: array<Octet>, colIdx0: nat, bufIdx0: nat, m0: Mode, ghost all: seq<Token>, ghost used0: nat)
      returns (go: bool, colIdx: nat, bufIdx: nat, m: Mode, ghost used: nat)
      requires Valid() && line != buffer && line.Length == WIDTH + 1 && colIdx0 <= WIDTH + 1 && bufIdx0 < count
      requires Printable(all) && Progress(all, used0, m0, buffer[bufIdx0..count], line[..colIdx0])
      requires forall i :: colIdx0 <= i <= WIDTH ==> line[i] == 0
      modifies buffer, line
      ensures bufIdx0 <= bufIdx <= bufIdx0 + 1 && colIdx <= WIDTH + 1
      ensures Progress(all, used, m, buffer[bufIdx..count], line[..colIdx])
      ensures forall i :: colIdx <= i <= WIDTH ==> line[i] == 0
      ensures go && bufIdx == bufIdx0 ==> buffer[bufIdx0] < old(buffer[bufIdx0])
      ensures go ==> buffer[bufIdx..count] == Shorter(old(buffer[bufIdx0..count]))
      ensures var b := old(buffer[bufIdx0]);
              if IsEmptyRun(b) then go && m == m0 && colIdx == colIdx0
              else
                var t := FirstOf(b);
                && go == Room(t, m0, colIdx0)
                && (go ==> m == ModeAfter(t, m0) && colIdx == colIdx0 + TokenWidth(t, m0, Wide()))
      ensures !go ==> buffer[..] == old(buffer[..]) && bufIdx == bufIdx0 && colIdx == colIdx0 && m == m0
                      && used == Taken(all, mode, Wide(), 0)
    {
      hide Progress, ExpandAll, Expand, Taken, Glyph, Widen, Repeat;
      var byte := buffer[bufIdx0];
      ghost var bytes, later, cols := buffer[bufIdx0..count], buffer[bufIdx0 + 1..count], line[..colIdx0];
      assert bytes == [byte] + later && bytes[1..] == later;
      colIdx, bufIdx, m, used := colIdx0, bufIdx0, m0, used0;
      if byte < 0x80 {
        if Graphics(m) {
          go, colIdx := AddColumn(line, colIdx, byte);
        } else {
          go, colIdx := AddChar(line, colIdx, byte, m);
        }
        assert !go ==> line[..colIdx] == cols;
        SingleToken(byte, later);
        TakeToken(all, used, m, bytes, Data(byte), later, cols);
        if go {
          bufIdx := bufIdx + 1;
          used := used + 1;
          assert buffer[bufIdx..count] == later;
          assert Progress(all, used, m, buffer[bufIdx..count], line[..colIdx]);
        }
      } else if byte == 0xa0 || byte == 0xb8 {
        go := true;
        EmptyRun(byte, later);
        SameTokens(all, used, m, bytes, later, cols);
        bufIdx := bufIdx + 1;
        assert Progress(all, used, m, buffer[bufIdx..count], line[..colIdx]);
      } else if byte > 0xa0 && byte <= 0xb7 {
        go, colIdx := AddChar(line, colIdx, 0x20, m);
        assert !go ==> line[..colIdx] == cols;
        ShorterRun(byte, later);
        TakeToken(all, used, m, bytes, Space, [byte - 1] + later, cols);
        if go {
          buffer[bufIdx] := byte - 1;
          used := used + 1;
          assert buffer[bufIdx..count] == [byte - 1] + later;
          assert Progress(all, used, m, buffer[bufIdx..count], line[..colIdx]);
        }
      } else if byte > 0xb8 && byte <= 0xbf {
        go, colIdx := AddColumn(line, colIdx, 0);
        assert !go ==> line[..colIdx] == cols;
        ShorterRun(byte, later);
        TakeToken(all, used, m, bytes, Blank, [byte - 1] + later, cols);
        if go {
          buffer[bufIdx] := byte - 1;
          used := used + 1;
          assert buffer[bufIdx..count] == [byte - 1] + later;
          assert Progress(all, used, m, buffer[bufIdx..count], line[..colIdx]);
        }
      } else {
        go := true;
        SingleToken(byte, later);
        TakeToken(all, used, m, bytes, SetMode(byte % 8), later, cols);
        m := byte % 8;
        bufIdx := bufIdx + 1;
        used := used + 1;
        assert cols + [] == cols;
        assert Progress(all, used, m, buffer[bufIdx..count], line[..colIdx]);
      }
    }

    lemma SameTokens(all: seq<Token>, used: nat, m: Mode, bytes: seq<Octet>, later: seq<Octet>, cols: seq<Octet>)
      requires IsFont(font) && Printable(all) && Progress(all, used, m, bytes, cols)
      requires ExpandAll(bytes) == ExpandAll(later)
      ensures Progress(all, used, m, later, cols)
    {
    }

    lemma StartLine(all: seq<Token>, bytes: seq<Octet>)
      requires IsFont(font) && Printable(all) && all == ExpandAll(bytes)
      ensures Progress(all, 0, mode, bytes, [])
    {
      assert all[..0] == [] && all[0..] == all;
    }

    lemma EndLine(all: seq<Token>, used: nat, m: Mode, bytes: seq<Octet>, cols: seq<Octet>)
      requires IsFont(font) && Printable(all) && Progress(all, used, m, bytes, cols)
      ensures bytes == [] ==> used == Taken(all, mode, Wide(), 0)
      ensures used <= |all| && cols == Render(font, all[..used], mode, Wide())
    {
    }

    /** The next token is t: with room it is printed and Progress holds with one more used; without, the
        line is finished. */
    lemma TakeToken(all: seq<Token>, used: nat, m: Mode, bytes: seq<Octet>, t: Token, later: seq<Octet>,
                    cols: seq<Octet>)
      requires IsFont(font) && Printable(all) && Progress(all, used, m, bytes, cols)
      requires ExpandAll(bytes) == [t] + ExpandAll(later) && (t.Data? ==> t.b < 128)
      ensures if Room(t, m, |cols|) then
                Progress(all, used + 1, ModeAfter(t, m), later, cols + Columns(font, t, m, Wide()))
              else used == Taken(all, mode, Wide(), 0)
    {
      hide Render, ModeEnd, ExpandAll, Columns, TokenWidth, Room;
      TakenFirst(all[used..], m, Wide(), |cols|);
      assert all[used] == t && all[used..][1..] == all[used + 1..];
      if Room(t, m, |cols|) {
        assert all[..used + 1] == all[..used] + [t];
        RenderAppend(font, all[..used], [t], mode, Wide());
        RenderOne(font, t, m, Wide());
        ModeEndSnoc(all[..used], t, mode);
        ColumnsWidth(font, t, m, Wide());
      }
    }

    /** `used` tokens have been printed on the line so far, and the bytes denote the others. */
    ghost predicate Progress(all: seq<Token>, used: nat, m: Mode, bytes: seq<Octet>, cols: seq<Octet>)
      requires IsFont(font) && Printable(all)
      reads this
    {
      && used <= |all| && ExpandAll(bytes) == all[used..]
      && m == ModeEnd(all[..used], mode)
      && cols == Render(font, all[..used], mode, Wide())
      && Taken(all, mode, Wide(), 0) == used + Taken(all[used..], m, Wide(), |cols|)
    }
  }

  lemma TakenFirst(tokens: seq<Token>, m: Mode, wide: bool, col: nat)
    requires |tokens| > 0
    ensures Taken(tokens, m, wide, col)
            == if Room(tokens[0], m, col)
               then 1 + Taken(tokens[1..], ModeAfter(tokens[0], m), wide, col + TokenWidth(tokens[0], m, wide))
               else 0
  {
  }

  lemma RenderOne(font: seq<seq<Octet>>, t: Token, m: Mode, wide: bool)
    requires IsFont(font) && (t.Data? ==> t.b < 128)
    ensures Render(font, [t], m, wide) == Columns(font, t, m, wide)
  {
    assert Columns(font, t, m, wide) + [] == Columns(font, t, m, wide);
  }

  lemma {:induction false} ModeEndSnoc(a: seq<Token>, t: Token, m: Mode)
    ensures ModeEnd(a + [t], m) == ModeAfter(t, ModeEnd(a, m))
  {
    if |a| > 0 {
      assert (a + [t])[1..] == a[1..] + [t];
      ModeEndSnoc(a[1..], t, ModeAfter(a[0], m));
    } else {
      assert a + [t] == [t];
    }
  }

  /** Decrementing a run byte removes one token; a run of none is no tokens. */
  lemma ShorterRun(b: Octet, later: seq<Octet>)
    requires 0xa0 < b <= 0xb7 || 0xb8 < b <= 0xbf
    ensures |Expand(b)| == 1 + |Expand(b - 1)|
    ensures ExpandAll([b] + later) == [if b <= 0xb7 then Space else Blank] + ExpandAll([b - 1] + later)
  {
    if b <= 0xb7 {
      RunStep(Space, b - 0xa0, b, later);
    } else {
      RunStep(Blank, b - 0xb8, b, later);
    }
  }

  lemma RunStep(t: Token, n: nat, b: Octet, later: seq<Octet>)
    requires 0 < n <= b && Expand(b) == Repeat(t, n) && Expand(b - 1) == Repeat(t, n - 1)
    ensures |Expand(b)| == 1 + |Expand(b - 1)|
    ensures ExpandAll([b] + later) == [t] + ExpandAll([b - 1] + later)
  {
    hide Repeat, Expand, ExpandAll;
    RepeatFirst(t, n);
    ExpandFirst(b, later);
    ExpandFirst(b - 1, later);
    assert [t] + Repeat(t, n - 1) + ExpandAll(later) == [t] + (Repeat(t, n - 1) + ExpandAll(later));
  }

  lemma RepeatFirst(t: Token, n: nat)
    requires n > 0
    ensures Repeat(t, n) == [t] + Repeat(t, n - 1)
  {
  }

  lemma {:induction false} ExpandSnoc(bytes: seq<Octet>, b: Octet)
    ensures ExpandAll(bytes + [b]) == ExpandAll(bytes) + Expand(b)
  {
    if |bytes| == 0 {
      assert bytes + [b] == [b] + [];
      ExpandFirst(b, []);
    } else {
      assert (bytes + [b])[1..] == bytes[1..] + [b];
      ExpandSnoc(bytes[1..], b);
    }
  }

  lemma ExpandFirst(b: Octet, later: seq<Octet>)
    ensures ExpandAll([b] + later) == Expand(b) + ExpandAll(later)
  {
    assert ([b] + later)[1..] == later;
  }

  lemma SingleToken(b: Octet, later: seq<Octet>)
    requires b < 0xa0 || b > 0xbf
    ensures Expand(b) == [if b < 0x80 then Data(b) else SetMode(b % 8)]
    ensures ExpandAll([b] + later) == [if b < 0x80 then Data(b) else SetMode(b % 8)] + ExpandAll(later)
  {
    ExpandFirst(b, later);
  }

  lemma EmptyRun(b: Octet, later: seq<Octet>)
    requires b == 0xa0 || b == 0xb8
    ensures |Expand(b)| == 0 && ExpandAll([b] + later) == ExpandAll(later)
  {
    assert ([b] + later)[1..] == later;
  }

  function StatusMode(status: set<nat>): Mode {
    (if HS_DOUBLE_WIDE in status then 4 else 0) + (if HS_GRAPHICS in status then 2 else 0)
    + (if HS_LOWER_CASE in status then 1 else 0)
  }

  lemma ModeBits(m: Mode)
    ensures m == (if DoubleWide(m) then 4 else 0) + (if Graphics(m) then 2 else 0) + (if LowerCase(m) then 1 else 0)
  {
  }

  lemma {:induction false} WidenAppend(a: seq<Octet>, b: seq<Octet>, wide: bool)
    ensures Widen(a + b, wide) == Widen(a, wide) + Widen(b, wide)
  {
    if |a| == 0 {
      assert a + b == b;
    } else {
      assert (a + b)[1..] == a[1..] + b;
      WidenAppend(a[1..], b, wide);
    }
  }

  lemma WidenSnoc(cells: seq<Octet>, k: nat, wide: bool)
    requires k < |cells|
    ensures Widen(cells[..k + 1], wide) == Widen(cells[..k], wide) + Widen([cells[k]], wide)
  {
    assert cells[..k + 1] == cells[..k] + [cells[k]];
    WidenAppend(cells[..k], [cells[k]], wide);
  }
}
