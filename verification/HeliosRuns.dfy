/** Runs of the Helios printer from a reset on: when its buffer overflows, when a line is too wide, and
    what successive lines show of a buffer that does not fit on one. */
module HeliosRuns {
  import opened Bytes
  import opened Helios
  import Numbers

  type Line = seq<Octet>

  // ---------- runs ----------

  /** A run ends early when a byte is to be stored behind the end of the buffer. */
  datatype Outcome = Overflowed | Printed(state: State, papers: seq<Line>)

  function Run(font: seq<Line>, s: State, bytes: seq<Octet>): Outcome
    requires IsFont(font)
    decreases |bytes|
  {
    if |bytes| == 0 then Printed(s, [])
    else if !HasPlace(s, bytes[0]) then Overflowed
    else
      var (t, papers) := Written(font, s, bytes[0]);
      match Run(font, t, bytes[1..])
      case Overflowed => Overflowed
      case Printed(end, more) => Printed(end, papers + more)
  }

  lemma RunFirst(font: seq<Line>, s: State, byte: Octet, later: seq<Octet>)
    requires IsFont(font)
    ensures Run(font, s, [byte] + later)
            == if !HasPlace(s, byte) then Overflowed
               else
                 var (t, papers) := Written(font, s, byte);
                 match Run(font, t, later)
                 case Overflowed => Overflowed
                 case Printed(end, more) => Printed(end, papers + more)
  {
    assert ([byte] + later)[1..] == later;
    hide Written, HasPlace;
  }

  lemma {:induction false} RunAppend(font: seq<Line>, s: State, a: seq<Octet>, b: seq<Octet>)
    requires IsFont(font) && Run(font, s, a).Printed?
    ensures var mid := Run(font, s, a);
            Run(font, s, a + b)
            == match Run(font, mid.state, b)
               case Overflowed => Overflowed
               case Printed(end, more) => Printed(end, mid.papers + more)
    decreases |a|
  {
    hide Written, HasPlace;
    if |a| == 0 {
      assert a + b == b;
      var r := Run(font, s, b);
      assert r.Printed? ==> [] + r.papers == r.papers;
    } else {
      assert (a + b)[1..] == a[1..] + b;
      var (t, papers) := Written(font, s, a[0]);
      RunAppend(font, t, a[1..], b);
      var mid, r := Run(font, t, a[1..]), Run(font, Run(font, t, a[1..]).state, b);
      assert r.Printed? ==> papers + (mid.papers + r.papers) == papers + mid.papers + r.papers;
    }
  }

  // ---------- the buffer ----------

  /** A run of spaces that does not fit on a line in double width. */
  predicate LongRun(b: Octet) {
    0xad <= b <= 0xb7
  }

  /** A byte that makes the status double wide. */
  predicate WideByte(b: Octet) {
    0xd0 <= b <= 0xdf && DoubleWide(b % 8)
  }

  /** What one byte does to the room in the buffer. */
  lemma WrittenRoom(font: seq<Line>, s: State, byte: Octet)
    requires IsFont(font) && HasPlace(s, byte) && |s.buf| < BUF_MAX
    ensures var t := Written(font, s, byte).0;
            && |t.buf| <= BUF_MAX && (byte > 0xdf ==> |t.buf| <= |s.buf|)
            && (|t.buf| == BUF_MAX ==> DoubleWide(t.mode) && LongRun((s.buf + [byte])[0]))
            && (NoLongRuns(s.buf) && !LongRun(byte) ==> NoLongRuns(t.buf))
            && t.mode == (if byte <= 0xdf && s.buf == [] then StatusMode(s.status) else s.mode)
            && (t.Wide() <==> if 0xd0 <= byte <= 0xdf then DoubleWide(byte % 8) else s.Wide())
  {
    hide Flushed, Buffered, ExpandAll, Expand, Taken, Render, PaperLine, StatusMode, State.Tokens, IsFont;
    WrittenMeans(font, s, byte);
    AppendedMeans(s, byte);
    var b := if byte <= 0xdf then Buffered(s, byte) else s.(status := WithBit(s.status, HS_LAST_BYTE_EOL, IsEol(byte)));
    FlushedMeans(font, b, if byte <= 0xdf then HS_RIGHT_JUST in b.status else byte == 0xe8);
  }

  /** Without long runs the buffer always has a place for another byte. */
  lemma {:induction false} NoLongRunsNoOverflow(font: seq<Line>, s: State, bytes: seq<Octet>)
    requires IsFont(font) && |s.buf| < BUF_MAX && NoLongRuns(s.buf) && (forall b | b in bytes :: !LongRun(b))
    ensures var end := Run(font, s, bytes); end.Printed? && |end.state.buf| < BUF_MAX
    decreases |bytes|
  {
    hide Written;
    if |bytes| > 0 {
      assert bytes[0] in bytes && forall b | b in bytes[1..] :: b in bytes;
      WrittenRoom(font, s, bytes[0]);
      NoLongRunsNoOverflow(font, Written(font, s, bytes[0]).0, bytes[1..]);
    }
  }

  lemma StatusModeWide(s: State)
    ensures DoubleWide(StatusMode(s.status)) <==> s.Wide()
  {
  }

  /** Nor does it overflow without double width. */
  lemma {:induction false} NarrowNoOverflow(font: seq<Line>, s: State, bytes: seq<Octet>)
    requires IsFont(font) && |s.buf| < BUF_MAX && !s.Wide() && (s.buf != [] ==> !DoubleWide(s.mode))
    requires forall b | b in bytes :: !WideByte(b)
    ensures var end := Run(font, s, bytes); end.Printed? && |end.state.buf| < BUF_MAX
    decreases |bytes|
  {
    hide Written, StatusMode, DoubleWide;
    if |bytes| > 0 {
      assert bytes[0] in bytes && forall b | b in bytes[1..] :: b in bytes;
      StatusModeWide(s);
      WrittenRoom(font, s, bytes[0]);
      NarrowNoOverflow(font, Written(font, s, bytes[0]).0, bytes[1..]);
    }
  }

  function Times(b: Octet, n: nat): (r: seq<Octet>)
    ensures |r| == n && forall i :: 0 <= i < n ==> r[i] == b
  {
    if n == 0 then [] else [b] + Times(b, n - 1)
  }

  lemma CollectsOne(font: seq<Line>, s: State, b: Octet)
    requires IsFont(font) && |s.buf| + 1 < BUF_MAX && b <= 0xdf
    ensures HasPlace(s, b)
    ensures var (t, papers) := Written(font, s, b);
            papers == [] && t.buf == s.buf + [b] && t.mode == if s.buf == [] then StatusMode(s.status) else s.mode
  {
    hide Written, StatusMode, State.Tokens, ExpandAll, Expand, Render, Taken, PaperLine, TooWideForALine, IsFont;
    WrittenMeans(font, s, b);
  }

  /** The buffer holds 43 bytes: a byte to be stored prints a line exactly when it is the last of them. */
  lemma FullBuffer(font: seq<Line>, s: State, b: Octet)
    requires IsFont(font) && |s.buf| < 43 && b <= 0xdf
    ensures HasPlace(s, b)
    ensures |Written(font, s, b).1| == (if |s.buf| == 42 then 1 else 0)
  {
    hide Written, StatusMode, State.Tokens, ExpandAll, Expand, Render, Taken, PaperLine, TooWideForALine, IsFont;
    WrittenMeans(font, s, b);
  }

  /** As long as the buffer does not fill up, bytes are just collected. */
  lemma {:induction false} Collects(font: seq<Line>, s: State, bytes: seq<Octet>)
    requires IsFont(font) && |s.buf| + |bytes| < BUF_MAX && forall b | b in bytes :: b <= 0xdf
    ensures var r := Run(font, s, bytes);
            && r.Printed? && r.papers == [] && r.state.buf == s.buf + bytes
            && r.state.mode == (if s.buf == [] && bytes != [] then StatusMode(s.status) else s.mode)
    decreases |bytes|
  {
    hide Run, Written, HasPlace, StatusMode, IsFont;
    if |bytes| == 0 {
      RunNothing(font, s);
    } else {
      var b, later := bytes[0], bytes[1..];
      assert b in bytes && forall c | c in later :: c in bytes;
      CollectsOne(font, s, b);
      var t := Written(font, s, b).0;
      Collects(font, t, later);
      RunFirst(font, s, b, later);
      assert bytes == [b] + later && s.buf + [b] + later == s.buf + bytes;
    }
  }

  lemma {:induction false} CollectsWide(font: seq<Line>, s: State, d: Octet, n: nat)
    requires IsFont(font) && |s.buf| + n < BUF_MAX && WideByte(d) && (n == 0 ==> s.Wide())
    ensures var r := Run(font, s, Times(d, n)); r.Printed? && r.state.Wide()
    decreases n
  {
    hide Written, StatusMode, State.Tokens, ExpandAll, Expand, State.Wide;
    if n > 0 {
      WrittenMeans(font, s, d);
      var t := Written(font, s, d).0;
      RunFirst(font, s, d, Times(d, n - 1));
      CollectsWide(font, t, d, n - 1);
    }
  }

  lemma {:induction false} ModesAllTaken(d: Octet, n: nat, m: Mode, wide: bool, col: nat)
    requires WideByte(d)
    ensures Rest(Times(d, n), m, wide, col) == []
  {
    if n > 0 {
      RestStep(Times(d, n), m, wide, col);
      assert Times(d, n)[1..] == Times(d, n - 1);
      ModesAllTaken(d, n - 1, d % 8, wide, col);
    }
  }

  /** The state after a run that does not overflow, and one byte more. */
  lemma RunThen(font: seq<Line>, s: State, bytes: seq<Octet>, b: Octet)
    requires IsFont(font) && Run(font, s, bytes).Printed?
    ensures var t := Run(font, s, bytes).state;
            var r := Run(font, s, bytes + [b]);
            if HasPlace(t, b) then r.Printed? && r.state == Written(font, t, b).0 else r.Overflowed?
  {
    var t := Run(font, s, bytes).state;
    RunAppend(font, s, bytes, [b]);
    RunFirst(font, t, b, []);
    assert [b] + [] == [b];
    hide Written, HasPlace;
  }

  lemma RunOn(font: seq<Line>, s: State, a: seq<Octet>, b: seq<Octet>)
    requires IsFont(font) && Run(font, s, a).Printed? && Run(font, Run(font, s, a).state, b).Printed?
    ensures var r := Run(font, s, a + b); r.Printed? && r.state == Run(font, Run(font, s, a).state, b).state
  {
    RunAppend(font, s, a, b);
    hide Run;
  }

  /** A buffer full of mode bytes is empty after the flush. */
  lemma FullOfModes(font: seq<Line>, s: State, d: Octet)
    requires IsFont(font) && WideByte(d) && s.buf == Times(d, BUF_MAX - 1)
    ensures var t := Written(font, s, d).0; t.buf == [] && t.Wide()
  {
    var b := Buffered(s, d);
    AppendedMeans(s, d);
    hide Buffered, Rest, ExpandAll, Expand, Taken, Render, PaperLine, State.Tokens, IsFont;
    assert b.buf == Times(d, BUF_MAX);
    ModesAllTaken(d, BUF_MAX, b.mode, b.Wide(), 0);
  }

  /** Wide after the mode bytes fill a buffer. */
  lemma WideLines(font: seq<Line>, s: State, d: Octet)
    requires IsFont(font) && WideByte(d) && s.buf == []
    ensures var r := Run(font, s, Times(d, BUF_MAX - 1) + [d]); r.Printed? && r.state.buf == [] && r.state.Wide()
  {
    hide Run, Written, State.Wide, StatusMode;
    Collects(font, s, Times(d, BUF_MAX - 1));
    CollectsWide(font, s, d, BUF_MAX - 1);
    RunThen(font, s, Times(d, BUF_MAX - 1), d);
    var t := Run(font, s, Times(d, BUF_MAX - 1)).state;
    assert [] + Times(d, BUF_MAX - 1) == Times(d, BUF_MAX - 1);
    FullOfModes(font, t, d);
  }

  /** A line that starts with a long run in double width leaves the buffer full. */
  lemma StaysFull(font: seq<Line>, s: State, r: Octet, d: Octet)
    requires IsFont(font) && WideByte(d) && LongRun(r) && s.buf == [] && s.Wide()
    ensures var end := Run(font, s, [r] + Times(d, BUF_MAX - 2) + [d]); end.Printed? && |end.state.buf| == BUF_MAX
  {
    hide Run, Written, StatusMode, State.Tokens, ExpandAll, Expand;
    var first := [r] + Times(d, BUF_MAX - 2);
    Collects(font, s, first);
    StatusModeWide(s);
    RunThen(font, s, first, d);
    var t := Run(font, s, first).state;
    assert t.buf == first;
    WrittenMeans(font, t, d);
  }

  /** A buffer of mode bytes, one that starts with a run of spaces, and the byte that has no place. */
  function OverflowBytes(r: Octet, d: Octet): seq<Octet> {
    Times(d, BUF_MAX - 1) + [d] + ([r] + Times(d, BUF_MAX - 2) + [d]) + [d]
  }

  lemma OverflowRun(font: seq<Line>, s: State, r: Octet, d: Octet)
    requires IsFont(font) && WideByte(d) && LongRun(r) && s.buf == []
    ensures Run(font, s, OverflowBytes(r, d)).Overflowed?
  {
    hide Run, Written, WideByte, LongRun, HasPlace, IsFont;
    var a, b := Times(d, BUF_MAX - 1) + [d], [r] + Times(d, BUF_MAX - 2) + [d];
    WideLines(font, s, d);
    StaysFull(font, Run(font, s, a).state, r, d);
    RunOn(font, s, a, b);
    RunThen(font, s, a + b, d);
    NoPlace(Run(font, s, a + b).state, d);
  }

  lemma NoPlace(s: State, d: Octet)
    requires |s.buf| == BUF_MAX && WideByte(d)
    ensures !HasPlace(s, d)
  {
  }

  ghost predicate Only(bytes: seq<Octet>, alphabet: set<Octet>) {
    forall b | b in bytes :: b in alphabet
  }

  /** A calculator that keeps to a set of bytes never makes the printer store behind its buffer exactly when
      it sends no long run of spaces, or no byte for double width. */
  lemma OverflowIff(font: seq<Line>, m: Mode, alphabet: set<Octet>)
    requires IsFont(font)
    ensures (forall bytes | Only(bytes, alphabet) :: Run(font, AfterReset(m), bytes).Printed?)
            <==> (forall b | b in alphabet :: !LongRun(b)) || (forall b | b in alphabet :: !WideByte(b))
  {
    hide Run, LongRun, WideByte, IsFont, OverflowBytes;
    if r, d :| r in alphabet && d in alphabet && LongRun(r) && WideByte(d) {
      OverflowRun(font, AfterReset(m), r, d);
      OnlyTwo(r, d);
      assert Only(OverflowBytes(r, d), alphabet);
    } else {
      forall bytes | Only(bytes, alphabet)
        ensures Run(font, AfterReset(m), bytes).Printed?
      {
        if forall b | b in alphabet :: !LongRun(b) {
          NoLongRunsNoOverflow(font, AfterReset(m), bytes);
        } else {
          NarrowNoOverflow(font, AfterReset(m), bytes);
        }
      }
    }
  }

  lemma OnlyTwo(r: Octet, d: Octet)
    ensures Only(OverflowBytes(r, d), {r, d})
  {
  }

  // ---------- a line of text ----------

  /** Bytes that stand for characters or columns themselves. */
  predicate Text(bytes: seq<Octet>) {
    forall b | b in bytes :: b < 0x80
  }

  lemma {:induction false} TextTokens(text: seq<Octet>)
    requires Text(text)
    ensures ExpandAll(text) == seq(|text|, i requires 0 <= i < |text| => Data(text[i]))
    decreases |text|
  {
    if |text| > 0 {
      assert forall b | b in text[1..] :: b in text;
      assert text[0] in text;
      TextTokens(text[1..]);
    }
  }

  /** A text without graphics has room on a line as long as its characters have. */
  lemma {:induction false} TextTaken(text: seq<Octet>, m: Mode, wide: bool, col: nat)
    requires Text(text) && !Graphics(m) && col + CharWidth(m) * |text| <= WIDTH
    ensures Taken(ExpandAll(text), m, wide, col) == |text|
    decreases |text|
  {
    if |text| > 0 {
      assert forall b | b in text[1..] :: b in text;
      assert text[0] in text;
      TextTokens(text);
      assert CharWidth(m) * |text| == CharWidth(m) + CharWidth(m) * |text[1..]|;
      assert ExpandAll(text)[1..] == ExpandAll(text[1..]);
      TextTaken(text[1..], m, wide, col + CharWidth(m));
    }
  }

  /** Column j of the text: every character has its own columns. */
  function TextColumn(font: seq<Line>, text: seq<Octet>, m: Mode, j: nat): Octet
    requires IsFont(font) && Text(text) && j < CharWidth(m) * |text|
  {
    var w := CharWidth(m);
    InsideText(w, |text|, j);
    assert text[j / w] in text;
    Glyph(font, text[j / w], m)[j % w]
  }

  lemma InsideText(w: nat, n: nat, j: nat)
    requires w > 0 && j < w * n
    ensures j / w < n && j % w < w
  {
    var q := j / w;
    assert j == w * q + j % w;
    assert q >= n ==> w * n <= w * q;
  }

  lemma {:induction false} TextRendered(font: seq<Line>, text: seq<Octet>, m: Mode, wide: bool, j: nat)
    requires IsFont(font) && Text(text) && !Graphics(m) && j < CharWidth(m) * |text|
    ensures Printable(ExpandAll(text)) && |Render(font, ExpandAll(text), m, wide)| == CharWidth(m) * |text|
    ensures Render(font, ExpandAll(text), m, wide)[j] == TextColumn(font, text, m, j)
    decreases |text|
  {
    hide Glyph, IsFont;
    var w, later := CharWidth(m), text[1..];
    PrintableBuffer(text);
    assert text[0] in text && forall b | b in later :: b in text;
    assert ExpandAll(text) == [Data(text[0])] + ExpandAll(later);
    assert ExpandAll(text)[1..] == ExpandAll(later);
    PrintableBuffer(later);
    assert w * |text| == w + w * |later|;
    TextWidth(font, later, m, wide);
    GlyphWidth(font, text[0], m);
    if j >= w {
      NextCharacter(w, j);
      TextRendered(font, later, m, wide, j - w);
    } else {
      FirstCharacter(w, j);
    }
  }

  lemma GlyphWidth(font: seq<Line>, c: Octet, m: Mode)
    requires IsFont(font) && c < 128
    ensures |Glyph(font, c, m)| == CharWidth(m)
  {
  }

  lemma {:induction false} TextWidth(font: seq<Line>, text: seq<Octet>, m: Mode, wide: bool)
    requires IsFont(font) && Text(text) && !Graphics(m)
    ensures Printable(ExpandAll(text)) && |Render(font, ExpandAll(text), m, wide)| == CharWidth(m) * |text|
    decreases |text|
  {
    hide Glyph, IsFont;
    PrintableBuffer(text);
    if |text| > 0 {
      var later := text[1..];
      assert text[0] in text && forall b | b in later :: b in text;
      assert ExpandAll(text) == [Data(text[0])] + ExpandAll(later);
      assert ExpandAll(text)[1..] == ExpandAll(later);
      assert CharWidth(m) * |text| == CharWidth(m) + CharWidth(m) * |later|;
      TextWidth(font, later, m, wide);
      GlyphWidth(font, text[0], m);
    }
  }

  lemma NextCharacter(w: nat, j: nat)
    requires w > 0 && j >= w
    ensures (j - w) / w == j / w - 1 && (j - w) % w == j % w
  {
    Numbers.DivModUnique(j - w, w, j / w - 1, j % w);
  }

  lemma FirstCharacter(w: nat, j: nat)
    requires j < w
    ensures j / w == 0 && j % w == j
  {
    Numbers.DivModUnique(j, w, 0, j);
  }

  /** A text and an end of line, sent to a printer with an empty buffer that is not set to graphics, print the
      characters one after the other at the left edge of one line, or at its right edge for the other end of
      line, and leave nothing buffered. The mode they are printed in is the one set at the first of them. */
  lemma TextPrinted(font: seq<Line>, s: State, text: seq<Octet>, right: bool)
    requires IsFont(font) && s.buf == [] && Text(text) && 0 < |text| < BUF_MAX
    requires !Graphics(StatusMode(s.status)) && CharWidth(StatusMode(s.status)) * |text| <= 168
    ensures var m := StatusMode(s.status);
            var w := CharWidth(m) * |text|;
            var start := if right then 168 - w else 0;
            var r := Run(font, s, text + [if right then 0xe8 else 0xe0]);
            && r.Printed? && |r.papers| == 1 && |r.papers[0]| == 168 && r.state.buf == []
            && forall i :: 0 <= i < 168 ==>
                 r.papers[0][i] == if start <= i < start + w then TextColumn(font, text, m, i - start) else 0
  {
    hide Run, Render, Taken, ExpandAll, Glyph, StatusMode, Graphics, DoubleWide, PaperLine, Written, TextColumn;
    hide IsFont, Rest;
    var m, e := StatusMode(s.status), if right then 0xe8 else 0xe0;
    var w := CharWidth(m) * |text|;
    assert forall b | b in text :: b <= 0xdf;
    assert s.buf + text == text;
    Collects(font, s, text);
    var t := Run(font, s, text).state;
    TextTaken(text, m, t.Wide(), 0);
    TextTokens(text);
    var all := ExpandAll(text);
    assert all[..|text|] == all;
    RunAppend(font, s, text, [e]);
    RunEnd(font, t, e);
    EolFlushes(font, t, right);
    var cols := Render(font, all, m, t.Wide());
    TextWidth(font, text, m, t.Wide());
    forall i | 0 <= i < 168
      ensures PaperLine(cols, right)[i]
              == var start := if right then 168 - w else 0;
                 if start <= i < start + w then TextColumn(font, text, m, i - start) else 0
    {
      PaperColumns(cols, right, i);
      var start := if right then 168 - w else 0;
      if start <= i < start + w {
        TextRendered(font, text, m, t.Wide(), i - start);
      }
    }
  }

  /** A run of spaces prints like as many characters for a space, unless the mode is graphics; a blank column
      prints like a graphics column of zero. */
  lemma RunsPrintAlike(font: seq<Line>, m: Mode, wide: bool, col: nat)
    requires IsFont(font)
    ensures !Graphics(m) ==> Columns(font, Space, m, wide) == Columns(font, Data(32), m, wide)
                             && (Room(Space, m, col) <==> Room(Data(32), m, col))
    ensures Graphics(m) ==> Columns(font, Blank, m, wide) == Columns(font, Data(0), m, wide)
                            && (Room(Blank, m, col) <==> Room(Data(0), m, col))
  {
    hide Glyph, Widen;
  }

  lemma {:induction false} ColumnsTaken(bytes: seq<Octet>, m: Mode, col: nat)
    requires Text(bytes) && Graphics(m) && col + |bytes| <= WIDTH
    ensures Taken(ExpandAll(bytes), m, false, col) == |bytes|
    decreases |bytes|
  {
    if |bytes| > 0 {
      assert forall b | b in bytes[1..] :: b in bytes;
      assert bytes[0] in bytes;
      TextTokens(bytes);
      assert ExpandAll(bytes)[1..] == ExpandAll(bytes[1..]);
      ColumnsTaken(bytes[1..], m, col + 1);
    }
  }

  lemma {:induction false} ColumnsRendered(font: seq<Line>, bytes: seq<Octet>, m: Mode)
    requires IsFont(font) && Text(bytes) && Graphics(m)
    ensures Printable(ExpandAll(bytes)) && Render(font, ExpandAll(bytes), m, false) == bytes
    decreases |bytes|
  {
    hide IsFont;
    PrintableBuffer(bytes);
    if |bytes| > 0 {
      var later := bytes[1..];
      assert bytes[0] in bytes && forall b | b in later :: b in bytes;
      assert ExpandAll(bytes) == [Data(bytes[0])] + ExpandAll(later);
      assert ExpandAll(bytes)[1..] == ExpandAll(later);
      ColumnsRendered(font, later, m);
      assert Widen([bytes[0]], false) == [bytes[0]];
      assert bytes == [bytes[0]] + later;
    }
  }

  /** In graphics mode and single width every byte is a column, at the left edge or at the right one. */
  lemma GraphicsPrinted(font: seq<Line>, s: State, bytes: seq<Octet>, right: bool)
    requires IsFont(font) && s.buf == [] && Text(bytes) && 0 < |bytes| < BUF_MAX
    requires Graphics(StatusMode(s.status)) && !s.Wide()
    ensures var start := if right then 168 - |bytes| else 0;
            var r := Run(font, s, bytes + [if right then 0xe8 else 0xe0]);
            && r.Printed? && |r.papers| == 1 && |r.papers[0]| == 168 && r.state.buf == []
            && forall i :: 0 <= i < 168 ==>
                 r.papers[0][i] == if start <= i < start + |bytes| then bytes[i - start] else 0
  {
    hide Run, Render, Taken, ExpandAll, StatusMode, Graphics, DoubleWide, PaperLine, Written, IsFont, Rest, State.Wide;
    var m, e := StatusMode(s.status), if right then 0xe8 else 0xe0;
    assert forall b | b in bytes :: b <= 0xdf && !WideByte(b);
    assert s.buf + bytes == bytes;
    Collects(font, s, bytes);
    StaysNarrow(font, s, bytes);
    var t := Run(font, s, bytes).state;
    ColumnsTaken(bytes, m, 0);
    TextTokens(bytes);
    ColumnsRendered(font, bytes, m);
    var all := ExpandAll(bytes);
    assert all[..|bytes|] == all;
    RunAppend(font, s, bytes, [e]);
    RunEnd(font, t, e);
    EolFlushes(font, t, right);
    forall i | 0 <= i < 168
      ensures PaperLine(bytes, right)[i]
              == var start := if right then 168 - |bytes| else 0;
                 if start <= i < start + |bytes| then bytes[i - start] else 0
    {
      PaperColumns(bytes, right, i);
    }
  }

  lemma {:induction false} StaysNarrow(font: seq<Line>, s: State, bytes: seq<Octet>)
    requires IsFont(font) && |s.buf| + |bytes| < BUF_MAX && Text(bytes) && !s.Wide()
    ensures Run(font, s, bytes).Printed? && !Run(font, s, bytes).state.Wide()
    decreases |bytes|
  {
    hide Run, Written, HasPlace, StatusMode, IsFont, State.Wide, State.Tokens, ExpandAll, Expand;
    if |bytes| == 0 {
      RunNothing(font, s);
    } else {
      var b, later := bytes[0], bytes[1..];
      assert b in bytes && forall c | c in later :: c in bytes;
      CollectsOne(font, s, b);
      WrittenMeans(font, s, b);
      var t := Written(font, s, b).0;
      StaysNarrow(font, t, later);
      RunFirst(font, s, b, later);
      assert bytes == [b] + later;
    }
  }

  /** A line is filled up: what is kept did not fit behind it. */
  lemma KeptDoesNotFit(font: seq<Line>, all: seq<Token>, m: Mode, wide: bool)
    requires IsFont(font) && Printable(all) && Taken(all, m, wide, 0) < |all|
    ensures var k := Taken(all, m, wide, 0);
            var t, r := all[k], ModeEnd(all[..k], m);
            var width := if t.Blank? || (t.Data? && r / 2 % 2 == 1) then 1 else if r >= 4 then 14 else 7;
            !t.SetMode? && |Render(font, all[..k], m, wide)| + width > 168
  {
    NoRoomBehind(font, all, m, wide, 0);
    hide Render, Taken, ModeEnd;
  }

  lemma {:induction false} NoRoomBehind(font: seq<Line>, all: seq<Token>, m: Mode, wide: bool, col: nat)
    requires IsFont(font) && Printable(all) && Taken(all, m, wide, col) < |all|
    ensures var k := Taken(all, m, wide, col);
            !Room(all[k], ModeEnd(all[..k], m), col + |Render(font, all[..k], m, wide)|)
    decreases |all|
  {
    hide Room, TokenWidth, Columns, IsFont;
    var k := Taken(all, m, wide, col);
    if k > 0 {
      ColumnsWidth(font, all[0], m, wide);
      NoRoomBehind(font, all[1..], ModeAfter(all[0], m), wide, col + TokenWidth(all[0], m, wide));
      assert all[..k][1..] == all[1..][..k - 1];
    }
  }

  lemma RunEnd(font: seq<Line>, s: State, e: Octet)
    requires IsFont(font) && HasPlace(s, e)
    ensures var (t, papers) := Written(font, s, e); Run(font, s, [e]) == Printed(t, papers)
  {
    hide Written;
    RunFirst(font, s, e, []);
    assert [e] + [] == [e];
    assert Written(font, s, e).1 + [] == Written(font, s, e).1;
  }

  lemma EolFlushes(font: seq<Line>, s: State, right: bool)
    requires IsFont(font) && Taken(s.Tokens(), s.mode, s.Wide(), 0) == |s.Tokens()|
    ensures var all := s.Tokens();
            var (t, papers) := Written(font, s, if right then 0xe8 else 0xe0);
            t.buf == [] && papers == [PaperLine(Render(font, all, s.mode, s.Wide()), right)]
  {
    hide Written, Render, Taken, PaperLine;
    var e := if right then 0xe8 else 0xe0;
    WrittenMeans(font, s, e);
    var all := s.Tokens();
    assert all[..|all|] == all && all[|all|..] == [];
    NothingLeft(font, s, e);
  }

  /** A flush that leaves no tokens leaves no bytes. */
  lemma NothingLeft(font: seq<Line>, s: State, e: Octet)
    requires IsFont(font) && IsEol(e) && Written(font, s, e).0.Tokens() == []
    ensures Written(font, s, e).0.buf == []
  {
    hide Taken, Render, PaperLine, ExpandAll, Rest;
    var r := Rest(s.buf, s.mode, s.Wide(), 0);
    assert Written(font, s, e).0.buf == r;
    RestKeepsTokens(s.buf, s.mode, s.Wide(), 0);
    if r != [] {
      assert r == [r[0]] + r[1..];
      ExpandFirst(r[0], r[1..]);
      SomeTokens(r[0]);
    }
  }

  lemma SomeTokens(b: Octet)
    requires !IsEmptyRun(b)
    ensures Expand(b) != []
  {
  }

  // ---------- a line too wide ----------

  /** Bytes collected from a reset on, the last of which makes the status double wide. */
  lemma CollectedWide(font: seq<Line>, m: Mode, front: seq<Octet>, d: Octet)
    requires IsFont(font) && WideByte(d) && |front| + 1 < BUF_MAX && forall b | b in front :: b <= 0xdf
    ensures var r := Run(font, AfterReset(m), front + [d]);
            r.Printed? && r.state.buf == front + [d] && r.state.mode == 0 && r.state.Wide()
  {
    hide Run, Written, State.Tokens, ExpandAll, Expand, State.Wide;
    var bytes := front + [d];
    assert [] + bytes == bytes;
    Collects(font, AfterReset(m), bytes);
    Collects(font, AfterReset(m), front);
    RunThen(font, AfterReset(m), front, d);
    WrittenMeans(font, Run(font, AfterReset(m), front).state, d);
  }

  /** Three bytes after a reset the buffer holds a line that is one column too wide. */
  lemma TooWideReached(font: seq<Line>, m: Mode)
    requires IsFont(font)
    ensures var r := Run(font, AfterReset(m), [0xb7, 0xbc, 0xd4]);
            && r.Printed?
            && var all := r.state.Tokens();
            |Render(font, all[..Taken(all, r.state.mode, r.state.Wide(), 0)], r.state.mode, r.state.Wide())|
                == WIDTH + 1
  {
    hide Run, Render, Taken, ExpandAll, State.Wide;
    assert [0xb7, 0xbc] + [0xd4] == [0xb7, 0xbc, 0xd4];
    CollectedWide(font, m, [0xb7, 0xbc], 0xd4);
    LineTooWide(font);
    var all := ExpandAll([0xb7, 0xbc, 0xd4]);
    assert all[..|all|] == all;
  }

  // ---------- the mode of what is kept ----------

  /** Two modes that print everything alike: letters as graphics columns have no case. */
  predicate SameMode(m: Mode, r: Mode) {
    DoubleWide(m) == DoubleWide(r) && Graphics(m) == Graphics(r) && (Graphics(m) || LowerCase(m) == LowerCase(r))
  }

  /** The font has some letter that looks different in lower case. */
  ghost predicate TellsCases(font: seq<Line>)
    requires IsFont(font)
  {
    exists c :: 0x41 <= c <= 0x5a && font[c] != font[c + 0x20]
  }

  lemma SameColumns(font: seq<Line>, t: Token, m: Mode, r: Mode, wide: bool)
    requires IsFont(font) && (t.Data? ==> t.b < 128) && SameMode(m, r)
    ensures Columns(font, t, m, wide) == Columns(font, t, r, wide)
  {
    hide Widen, IsFont;
  }

  lemma {:induction false} SameModeRenders(font: seq<Line>, tokens: seq<Token>, m: Mode, r: Mode, wide: bool)
    requires IsFont(font) && Printable(tokens) && SameMode(m, r)
    ensures Render(font, tokens, m, wide) == Render(font, tokens, r, wide)
  {
    hide Columns, SameMode;
    if |tokens| > 0 {
      SameColumns(font, tokens[0], m, r, wide);
      AlsoSame(m);
      SameModeRenders(font, tokens[1..], ModeAfter(tokens[0], m), ModeAfter(tokens[0], r), wide);
    }
  }

  lemma AlsoSame(m: Mode)
    ensures forall n: Mode :: SameMode(n, n)
  {
  }

  lemma {:induction false} WidenInjective(a: Line, b: Line, wide: bool)
    requires |a| == |b| && Widen(a, wide) == Widen(b, wide)
    ensures a == b
  {
    if |a| > 0 {
      var x, y := Widen(a, wide), Widen(b, wide);
      var n := if wide then 2 else 1;
      assert x[n..] == Widen(a[1..], wide) && y[n..] == Widen(b[1..], wide);
      assert x[0] == a[0] && y[0] == b[0];
      WidenInjective(a[1..], b[1..], wide);
      assert a == [a[0]] + a[1..] && b == [b[0]] + b[1..];
    }
  }

  lemma GlyphsDiffer(font: seq<Line>, c: nat, m: Mode, r: Mode)
    requires IsFont(font) && 0x41 <= c <= 0x5a && font[c] != font[c + 0x20]
    requires DoubleWide(m) == DoubleWide(r) && LowerCase(m) != LowerCase(r)
    ensures Glyph(font, c, m) != Glyph(font, c, r)
  {
    var a, b := [0] + font[c] + [0], [0] + font[c + 0x20] + [0];
    assert a[1..6] == font[c] && b[1..6] == font[c + 0x20];
    assert |a| == |b|;
    hide Widen;
    if Widen(a, DoubleWide(m)) == Widen(b, DoubleWide(m)) {
      WidenInjective(a, b, DoubleWide(m));
    }
  }

  /** Modes that differ print some token differently. */
  lemma TellingToken(font: seq<Line>, m: Mode, r: Mode, wide: bool) returns (t: Token)
    requires IsFont(font) && TellsCases(font) && !SameMode(m, r)
    ensures t.Data? || t.Space?
    ensures (t.Data? ==> t.b < 128) && Columns(font, t, m, wide) != Columns(font, t, r, wide)
  {
    var c :| 0x41 <= c <= 0x5a && font[c] != font[c + 0x20];
    t := if Graphics(m) == Graphics(r) && DoubleWide(m) != DoubleWide(r) then Space else Data(c);
    if Graphics(m) == Graphics(r) && DoubleWide(m) == DoubleWide(r) {
      GlyphsDiffer(font, c, m, r);
    }
    hide Widen, Glyph, IsFont;
  }

  ghost predicate ModeFree(tokens: seq<Token>) {
    forall i :: 0 <= i < |tokens| ==> !tokens[i].SetMode?
  }

  /** The mode reached is the last one set, or the first one if none is set. */
  lemma {:induction false} ModeEndIs(tokens: seq<Token>, m: Mode)
    ensures ModeFree(tokens) ==> ModeEnd(tokens, m) == m
    ensures forall i :: 0 <= i < |tokens| && tokens[i].SetMode? && ModeFree(tokens[i + 1..]) ==>
              ModeEnd(tokens, m) == tokens[i].m
  {
    if |tokens| > 0 {
      var rest := tokens[1..];
      ModeEndIs(rest, ModeAfter(tokens[0], m));
      assert forall i :: 0 <= i < |rest| ==> rest[i] == tokens[i + 1];
      forall i | 0 <= i < |tokens| && tokens[i].SetMode? && ModeFree(tokens[i + 1..])
        ensures ModeEnd(tokens, m) == tokens[i].m
      {
        if i > 0 {
          assert rest[i - 1] == tokens[i] && rest[i..] == tokens[i + 1..];
          assert rest[i - 1 + 1..] == rest[i..];
        }
      }
    }
  }

  lemma RenderThen(font: seq<Line>, tokens: seq<Token>, t: Token, m: Mode, wide: bool)
    requires IsFont(font) && Printable(tokens) && ModeFree(tokens) && (t.Data? ==> t.b < 128)
    ensures Printable(tokens + [t])
    ensures Render(font, tokens + [t], m, wide) == Render(font, tokens, m, wide) + Columns(font, t, m, wide)
  {
    hide Render, Columns, ModeEnd;
    RenderAppend(font, tokens, [t], m, wide);
    ModeEndIs(tokens, m);
    RenderOne(font, t, m, wide);
  }

  /** Modes that differ print some continuation differently, one token or none. */
  lemma TellingEnd(font: seq<Line>, tokens: seq<Token>, m: Mode, r: Mode, wide: bool) returns (cont: seq<Token>)
    requires IsFont(font) && TellsCases(font) && !SameMode(m, r) && Printable(tokens) && ModeFree(tokens)
    ensures Printable(cont) && ModeFree(cont) && Printable(tokens + cont)
    ensures Render(font, tokens + cont, m, wide) != Render(font, tokens + cont, r, wide)
  {
    hide Render, Columns, SameMode, TellsCases;
    if Render(font, tokens, m, wide) != Render(font, tokens, r, wide) {
      cont := [];
      assert tokens + cont == tokens;
    } else {
      var t := TellingToken(font, m, r, wide);
      cont := [t];
      RenderThen(font, tokens, t, m, wide);
      RenderThen(font, tokens, t, r, wide);
      var x := Render(font, tokens, m, wide);
      assert (x + Columns(font, t, m, wide))[|x|..] == Columns(font, t, m, wide);
      assert (x + Columns(font, t, r, wide))[|x|..] == Columns(font, t, r, wide);
    }
  }

  lemma FirstKept(all: seq<Token>, m: Mode, wide: bool, col: nat)
    requires Taken(all, m, wide, col) < |all|
    ensures !all[Taken(all, m, wide, col)].SetMode?
  {
  }

  /** What is printed of the kept tokens, with whatever follows the first of them, in the mode the program
      keeps for them is what they show in the mode the line ended in, exactly when these two modes print
      alike. The line ended in the mode of the last mode byte taken (`ModeEndIs`). */
  lemma KeptModeIff(font: seq<Line>, all: seq<Token>, m: Mode, wide: bool)
    requires IsFont(font) && TellsCases(font) && Printable(all) && Taken(all, m, wide, 0) < |all|
    ensures var k := Taken(all, m, wide, 0);
            var r := ModeEnd(all[..k], m);
            (forall cont | Printable(cont) ::
               Render(font, [all[k]] + cont, m, wide) == Render(font, [all[k]] + cont, r, wide))
            <==> SameMode(m, r)
  {
    var k := Taken(all, m, wide, 0);
    var r, first := ModeEnd(all[..k], m), [all[k]];
    FirstKept(all, m, wide, 0);
    hide Taken, Render, ModeEnd, SameMode, TellsCases;
    if SameMode(m, r) {
      forall cont | Printable(cont)
        ensures Render(font, first + cont, m, wide) == Render(font, first + cont, r, wide)
      {
        SameModeRenders(font, first + cont, m, r, wide);
      }
    } else {
      var cont := TellingEnd(font, first, m, r, wide);
      assert Render(font, first + cont, m, wide) != Render(font, first + cont, r, wide);
    }
  }

  /** The tokens before the first mode byte. */
  function BeforeMode(tokens: seq<Token>): (k: nat)
    ensures k <= |tokens| && (k < |tokens| ==> tokens[k].SetMode?)
    ensures forall i :: 0 <= i < k ==> !tokens[i].SetMode?
  {
    if |tokens| == 0 || tokens[0].SetMode? then 0 else 1 + BeforeMode(tokens[1..])
  }

  lemma SlicesPrintable(tokens: seq<Token>, cont: seq<Token>, k: nat)
    requires Printable(tokens) && Printable(cont) && k < |tokens|
    ensures Printable(tokens[..k]) && Printable(tokens + cont)
    ensures Printable(tokens[k..] + cont) && Printable(tokens[k + 1..] + cont)
  {
  }

  /** From a mode byte on the mode before it plays no part. */
  lemma RenderFromMode(font: seq<Line>, tokens: seq<Token>, cont: seq<Token>, m: Mode, wide: bool)
    requires IsFont(font) && Printable(tokens) && Printable(cont) && BeforeMode(tokens) < |tokens|
    ensures var k := BeforeMode(tokens);
            && Printable(tokens[..k]) && Printable(tokens + cont) && Printable(tokens[k + 1..] + cont)
            && Render(font, tokens + cont, m, wide)
               == Render(font, tokens[..k], m, wide) + Render(font, tokens[k + 1..] + cont, tokens[k].m, wide)
  {
    hide Render, BeforeMode, ModeEnd, IsFont, Printable;
    var k := BeforeMode(tokens);
    SlicesPrintable(tokens, cont, k);
    var tail := tokens[k..] + cont;
    assert tokens + cont == tokens[..k] + tail && tail[1..] == tokens[k + 1..] + cont;
    ModeByteFirst(font, tail, ModeEnd(tokens[..k], m), wide);
    RenderAppend(font, tokens[..k], tail, m, wide);
  }

  lemma ModeByteFirst(font: seq<Line>, tokens: seq<Token>, m: Mode, wide: bool)
    requires IsFont(font) && Printable(tokens) && |tokens| > 0 && tokens[0].SetMode?
    ensures Render(font, tokens, m, wide) == Render(font, tokens[1..], tokens[0].m, wide)
  {
    assert [] + Render(font, tokens[1..], tokens[0].m, wide) == Render(font, tokens[1..], tokens[0].m, wide);
  }

  /** The same for a given rest of the buffer: only continuations that still see the difference count, and a
      mode byte among the kept tokens hides it from everything behind. */
  lemma KeptRestIff(font: seq<Line>, kept: seq<Token>, m: Mode, r: Mode, wide: bool)
    requires IsFont(font) && TellsCases(font) && Printable(kept)
    ensures var k := BeforeMode(kept);
            (forall cont | Printable(cont) :: Render(font, kept + cont, m, wide) == Render(font, kept + cont, r, wide))
            <==> if k == |kept| then SameMode(m, r)
                 else Render(font, kept[..k], m, wide) == Render(font, kept[..k], r, wide)
  {
    var k := BeforeMode(kept);
    hide Render, SameMode, TellsCases, BeforeMode;
    if k == |kept| {
      if SameMode(m, r) {
        forall cont | Printable(cont)
          ensures Render(font, kept + cont, m, wide) == Render(font, kept + cont, r, wide)
        {
          SameModeRenders(font, kept + cont, m, r, wide);
        }
      } else {
        var cont := TellingEnd(font, kept, m, r, wide);
        assert Render(font, kept + cont, m, wide) != Render(font, kept + cont, r, wide);
      }
    } else {
      forall cont | Printable(cont)
        ensures Render(font, kept + cont, m, wide) == Render(font, kept + cont, r, wide)
                <==> Render(font, kept[..k], m, wide) == Render(font, kept[..k], r, wide)
      {
        RenderFromMode(font, kept, cont, m, wide);
        RenderFromMode(font, kept, cont, r, wide);
        SameFront(Render(font, kept[..k], m, wide), Render(font, kept[..k], r, wide),
            Render(font, kept[k + 1..] + cont, kept[k].m, wide));
      }
      assert Printable([]);
    }
  }

  lemma SameFront(a: Line, b: Line, c: Line)
    ensures a + c == b + c <==> a == b
  {
    if a + c == b + c {
      assert |a| == |b|;
      assert a == (a + c)[..|a|] && b == (b + c)[..|b|];
    }
  }

  // ---------- the stale mode, from a reset on ----------

  /** A double-wide mode byte and twelve spaces. */
  function StaleLine(): (t: seq<Token>)
    ensures Printable(t)
  {
    RepeatTokens(Space, 12);
    [SetMode(4)] + Repeat(Space, 12)
  }

  /** A double-wide mode byte, twelve spaces, a letter and an end of line. The line takes the spaces. The
      letter is kept and the mode it was meant for is not: on the next line it is printed in single width. */
  lemma StaleMode(font: seq<Line>, m: Mode, bytes: seq<Octet>)
    requires IsFont(font) && bytes == [0xd4, 0xac, 0x41, 0xe0]
    ensures var r := Run(font, AfterReset(m), bytes);
            && r.Printed? && r.papers == [PaperLine(Render(font, StaleLine(), 0, true), false)]
            && r.state.Tokens() == [Data(0x41)] && r.state.mode == 0
    ensures Render(font, [Data(0x41)], 0, true) != Render(font, [Data(0x41)], ModeEnd(StaleLine(), 0), true)
  {
    hide Run, Written, Render, Taken, ExpandAll, Expand, State.Wide, ModeEnd, Repeat, PaperLine, IsFont, StaleLine;
    var three := [0xd4, 0xac, 0x41];
    assert three + [0xe0] == bytes;
    StaleCollected(font, m);
    StaleFlush(font, Run(font, AfterReset(m), three).state);
    var t := Run(font, AfterReset(m), three).state;
    RunAppend(font, AfterReset(m), three, [0xe0]);
    StaleLetter(font);
    StaleEnd();
  }

  lemma StaleFlush(font: seq<Line>, t: State)
    requires IsFont(font) && t.buf == [0xd4, 0xac, 0x41] && t.mode == 0 && t.Wide()
    ensures var r := Run(font, t, [0xe0]);
            && r.Printed? && r.papers == [PaperLine(Render(font, StaleLine(), 0, true), false)]
            && r.state.Tokens() == [Data(0x41)] && r.state.mode == 0
  {
    hide Run, Written, Render, Taken, ExpandAll, Expand, State.Wide, Repeat, PaperLine, IsFont;
    var all := [SetMode(4)] + (Repeat(Space, 12) + [Data(0x41)]);
    StaleTokens();
    StaleTaken(Repeat(Space, 12), [Data(0x41)]);
    WrittenMeans(font, t, 0xe0);
    RunFirst(font, t, 0xe0, []);
    RunNothing(font, Written(font, t, 0xe0).0);
    assert [0xe0] + [] == [0xe0];
    assert all[..13] == StaleLine() && all[13..] == [Data(0x41)];
  }

  lemma RunNothing(font: seq<Line>, s: State)
    requires IsFont(font)
    ensures Run(font, s, []) == Printed(s, [])
  {
  }

  /** The mode byte comes first, and the status stays double wide. */
  lemma StaleCollected(font: seq<Line>, m: Mode)
    requires IsFont(font)
    ensures var r := Run(font, AfterReset(m), [0xd4, 0xac, 0x41]);
            r.Printed? && r.papers == [] && r.state.buf == [0xd4, 0xac, 0x41] && r.state.mode == 0 && r.state.Wide()
  {
    hide Run, Written, State.Tokens, ExpandAll, Expand, State.Wide;
    assert [] + [0xd4] == [0xd4] && [0xd4] + [0xac] == [0xd4, 0xac] && [0xd4, 0xac] + [0x41] == [0xd4, 0xac, 0x41];
    CollectedWide(font, m, [], 0xd4);
    RunThen(font, AfterReset(m), [0xd4], 0xac);
    WrittenMeans(font, Run(font, AfterReset(m), [0xd4]).state, 0xac);
    RunThen(font, AfterReset(m), [0xd4, 0xac], 0x41);
    WrittenMeans(font, Run(font, AfterReset(m), [0xd4, 0xac]).state, 0x41);
    Collects(font, AfterReset(m), [0xd4, 0xac, 0x41]);
    assert [] + [0xd4, 0xac, 0x41] == [0xd4, 0xac, 0x41];
  }

  lemma StaleEnd()
    ensures ModeEnd(StaleLine(), 0) == 4
  {
    var tokens := StaleLine();
    RepeatTokens(Space, 12);
    ModeEndIs(tokens, 0);
    assert ModeFree(tokens[0 + 1..]);
    hide Repeat, ModeEnd;
  }

  lemma StaleLetter(font: seq<Line>)
    requires IsFont(font)
    ensures Render(font, [Data(0x41)], 4, true) != Render(font, [Data(0x41)], 0, true)
  {
    hide Glyph, Widen, Columns;
    RenderOne(font, Data(0x41), 4, true);
    RenderOne(font, Data(0x41), 0, true);
    ColumnsWidth(font, Data(0x41), 4, true);
    ColumnsWidth(font, Data(0x41), 0, true);
  }

  lemma StaleTaken(spaces: seq<Token>, letter: seq<Token>)
    requires spaces == Repeat(Space, 12) && letter == [Data(0x41)]
    ensures Taken([SetMode(4)] + (spaces + letter), 0, true, 0) == 13
  {
    hide Repeat;
    var all := [SetMode(4)] + (spaces + letter);
    assert all[1..] == spaces + letter;
    SpacesTaken(12, 4, true, 0, letter);
    TakenFirst(letter, 4, true, 168);
    TakenFirst(all, 0, true, 0);
  }

  lemma StaleTokens()
    ensures ExpandAll([0xd4, 0xac, 0x41]) == [SetMode(4)] + (Repeat(Space, 12) + [Data(0x41)])
  {
    SingleToken(0x41, []);
    ExpandFirst(0xac, [0x41]);
    SingleToken(0xd4, [0xac, 0x41]);
    hide Repeat;
    assert [0x41] + [] == [0x41] && [0xac] + [0x41] == [0xac, 0x41] && [0xd4] + [0xac, 0x41] == [0xd4, 0xac, 0x41];
    assert [Data(0x41)] + ExpandAll([]) == [Data(0x41)];
  }

  // ---------- successive lines ----------

  /** The columns of the lines that successive flushes print, all in the mode kept for them. */
  function Lines(font: seq<Line>, all: seq<Token>, m: Mode, wide: bool): seq<Line>
    requires IsFont(font) && Printable(all)
    decreases |all|
  {
    if |all| == 0 then []
    else
      var k := Taken(all, m, wide, 0);
      SomeTaken(all, m, wide);
      [Render(font, all[..k], m, wide)] + Lines(font, all[k..], m, wide)
  }

  /** A new line always takes something. */
  lemma SomeTaken(all: seq<Token>, m: Mode, wide: bool)
    requires |all| > 0
    ensures Taken(all, m, wide, 0) > 0
  {
  }

  function Joined(lines: seq<Line>): Line {
    if |lines| == 0 then [] else lines[0] + Joined(lines[1..])
  }

  /** The tokens with the kept mode put in at every line break. */
  function Restarted(all: seq<Token>, m: Mode, wide: bool): seq<Token>
    decreases |all|
  {
    if |all| == 0 then []
    else
      var k := Taken(all, m, wide, 0);
      SomeTaken(all, m, wide);
      all[..k] + [SetMode(m)] + Restarted(all[k..], m, wide)
  }

  /** The lines together show the buffer as if the mode it started in were set again at every line break. */
  lemma {:induction false} LinesShow(font: seq<Line>, all: seq<Token>, m: Mode, wide: bool)
    requires IsFont(font) && Printable(all)
    ensures Printable(Restarted(all, m, wide))
    ensures Joined(Lines(font, all, m, wide)) == Render(font, Restarted(all, m, wide), m, wide)
    decreases |all|
  {
    hide Render, Taken, ModeEnd;
    if |all| > 0 {
      var k := Taken(all, m, wide, 0);
      SomeTaken(all, m, wide);
      LinesShow(font, all[k..], m, wide);
      var later := Restarted(all[k..], m, wide);
      var tail := [SetMode(m)] + later;
      assert all[..k] + [SetMode(m)] + later == all[..k] + tail;
      RenderAppend(font, all[..k], tail, m, wide);
      ModeByteFirst(font, tail, ModeEnd(all[..k], m), wide);
      assert tail[1..] == later;
      JoinedFirst(Render(font, all[..k], m, wide), Lines(font, all[k..], m, wide));
    } else {
      RenderNothing(font, m, wide);
    }
  }

  lemma RenderNothing(font: seq<Line>, m: Mode, wide: bool)
    requires IsFont(font)
    ensures Render(font, [], m, wide) == []
  {
  }

  lemma JoinedFirst(line: Line, lines: seq<Line>)
    ensures Joined([line] + lines) == line + Joined(lines)
  {
    assert ([line] + lines)[1..] == lines;
  }

  /** At every line break the mode reached prints like the mode kept. */
  predicate BreaksAgree(all: seq<Token>, m: Mode, wide: bool)
    decreases |all|
  {
    |all| == 0 ||
    var k := Taken(all, m, wide, 0);
    SomeTaken(all, m, wide);
    (k == |all| || SameMode(m, ModeEnd(all[..k], m))) && BreaksAgree(all[k..], m, wide)
  }

  lemma {:induction false} LinesAgree(font: seq<Line>, all: seq<Token>, m: Mode, wide: bool)
    requires IsFont(font) && Printable(all) && BreaksAgree(all, m, wide)
    ensures Joined(Lines(font, all, m, wide)) == Render(font, all, m, wide)
    decreases |all|
  {
    hide Render, Taken, ModeEnd, SameMode;
    if |all| > 0 {
      var k := Taken(all, m, wide, 0);
      SomeTaken(all, m, wide);
      LinesAgree(font, all[k..], m, wide);
      JoinedFirst(Render(font, all[..k], m, wide), Lines(font, all[k..], m, wide));
      assert all == all[..k] + all[k..];
      RenderAppend(font, all[..k], all[k..], m, wide);
      if k < |all| {
        SameModeRenders(font, all[k..], m, ModeEnd(all[..k], m), wide);
      } else {
        RenderNothing(font, m, wide);
        RenderNothing(font, ModeEnd(all[..k], m), wide);
      }
    } else {
      RenderNothing(font, m, wide);
    }
  }

  lemma {:induction false} TakenPrefix(all: seq<Token>, cont: seq<Token>, m: Mode, wide: bool, col: nat)
    requires Taken(all, m, wide, col) < |all|
    ensures Taken(all[..Taken(all, m, wide, col) + 1] + cont, m, wide, col) == Taken(all, m, wide, col)
    decreases |all|
  {
    hide Room, TokenWidth;
    var k := Taken(all, m, wide, col);
    var front := all[..k + 1] + cont;
    assert front[0] == all[0];
    if Room(all[0], m, col) {
      var next := col + TokenWidth(all[0], m, wide);
      TakenPrefix(all[1..], cont, ModeAfter(all[0], m), wide, next);
      assert front[1..] == all[1..][..k] + cont;
    }
  }

  lemma {:induction false} ModeFreeAgrees(all: seq<Token>, m: Mode, wide: bool)
    requires ModeFree(all)
    ensures BreaksAgree(all, m, wide)
    decreases |all|
  {
    hide Taken, ModeEnd;
    if |all| > 0 {
      var k := Taken(all, m, wide, 0);
      SomeTaken(all, m, wide);
      ModeEndIs(all[..k], m);
      ModeFreeAgrees(all[k..], m, wide);
    }
  }

  /** The lines of a buffer together show what the buffer shows on one endless line. */
  ghost predicate ShowsAll(font: seq<Line>, all: seq<Token>, m: Mode, wide: bool)
    requires IsFont(font)
  {
    Printable(all) ==> Joined(Lines(font, all, m, wide)) == Render(font, all, m, wide)
  }

  lemma OneBreak(font: seq<Line>, front: seq<Token>, kept: seq<Token>, m: Mode, wide: bool)
    requires IsFont(font) && Printable(front) && Printable(kept) && ModeFree(kept) && kept != []
    requires Taken(front + kept, m, wide, 0) == |front|
    ensures Printable(front + kept)
    ensures ShowsAll(font, front + kept, m, wide)
            <==> Render(font, kept, m, wide) == Render(font, kept, ModeEnd(front, m), wide)
  {
    var all := front + kept;
    assert all[..|front|] == front && all[|front|..] == kept;
    assert Lines(font, all, m, wide) == [Render(font, front, m, wide)] + Lines(font, kept, m, wide);
    hide Render, Taken, ModeEnd, Lines, Joined, BreaksAgree;
    JoinedFirst(Render(font, front, m, wide), Lines(font, kept, m, wide));
    ModeFreeAgrees(kept, m, wide);
    LinesAgree(font, kept, m, wide);
    RenderAppend(font, front, kept, m, wide);
    SameEnd(Render(font, front, m, wide), Render(font, kept, m, wide), Render(font, kept, ModeEnd(front, m), wide));
  }

  lemma SameEnd(a: Line, b: Line, c: Line)
    ensures a + b == a + c <==> b == c
  {
    assert b == (a + b)[|a|..] && c == (a + c)[|a|..];
  }

  lemma AtBreak(font: seq<Line>, all: seq<Token>, cont: seq<Token>, m: Mode, wide: bool, k: nat)
    requires IsFont(font) && Printable(all) && Printable(cont) && ModeFree(cont) && k == Taken(all, m, wide, 0) < |all|
    ensures Printable(all[..k]) && Printable([all[k]] + cont)
    ensures ShowsAll(font, all[..k + 1] + cont, m, wide)
            <==> Render(font, [all[k]] + cont, m, wide) == Render(font, [all[k]] + cont, ModeEnd(all[..k], m), wide)
  {
    hide Taken, Render, ModeEnd, ShowsAll;
    FirstKept(all, m, wide, 0);
    TakenPrefix(all, cont, m, wide, 0);
    var front, kept := all[..k], [all[k]] + cont;
    assert all[..k + 1] + cont == front + kept;
    OneBreak(font, front, kept, m, wide);
  }

  /** The first line break of a buffer, followed by any tokens without a mode byte: the lines together show
      what the buffer shows, whatever these tokens are, exactly when the mode reached at the break prints
      like the mode kept. Without a mode byte they always do (`ModeFreeAgrees`, `LinesAgree`). */
  lemma BreakAgreesIff(font: seq<Line>, all: seq<Token>, m: Mode, wide: bool)
    requires IsFont(font) && TellsCases(font) && Printable(all) && Taken(all, m, wide, 0) < |all|
    ensures var k := Taken(all, m, wide, 0);
            (forall cont | Printable(cont) && ModeFree(cont) :: ShowsAll(font, all[..k + 1] + cont, m, wide))
            <==> SameMode(m, ModeEnd(all[..k], m))
  {
    hide Taken, Render, ModeEnd, SameMode, TellsCases, ShowsAll, IsFont;
    var k := Taken(all, m, wide, 0);
    var r := ModeEnd(all[..k], m);
    FirstKept(all, m, wide, 0);
    if SameMode(m, r) {
      forall cont | Printable(cont) && ModeFree(cont)
        ensures ShowsAll(font, all[..k + 1] + cont, m, wide)
      {
        AtBreak(font, all, cont, m, wide, k);
        SameModeRenders(font, [all[k]] + cont, m, r, wide);
      }
    } else {
      var cont := TellingEnd(font, [all[k]], m, r, wide);
      AtBreak(font, all, cont, m, wide, k);
      assert !ShowsAll(font, all[..k + 1] + cont, m, wide);
    }
  }

  function Papers(lines: seq<Line>): seq<Line> {
    if |lines| == 0 then [] else [PaperLine(lines[0], false)] + Papers(lines[1..])
  }

  /** As many ends of line as there are lines print exactly these, and leave nothing buffered. */
  lemma {:induction false} FlushRun(font: seq<Line>, s: State)
    requires IsFont(font)
    ensures var lines := Lines(font, s.Tokens(), s.mode, s.Wide());
            var r := Run(font, s, Times(0xe0, |lines|));
            r.Printed? && r.papers == Papers(lines) && r.state.Tokens() == []
    decreases |s.Tokens()|
  {
    hide Run, Render, Taken, ExpandAll, Expand, Written, PaperLine, State.Tokens, State.Wide;
    var all := s.Tokens();
    if |all| == 0 {
      RunNothing(font, s);
    } else {
      var k := Taken(all, s.mode, s.Wide(), 0);
      SomeTaken(all, s.mode, s.Wide());
      WrittenMeans(font, s, 0xe0);
      var (t, papers) := Written(font, s, 0xe0);
      var later := Lines(font, t.Tokens(), t.mode, t.Wide());
      FlushRun(font, t);
      RunFirst(font, s, 0xe0, Times(0xe0, |later|));
      assert Lines(font, all, s.mode, s.Wide())[1..] == later;
    }
  }
}
