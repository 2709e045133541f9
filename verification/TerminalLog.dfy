/** The terminal as a log: lines printed after a reset come out as the tail of
    (scrollback, lines, blank rows), whatever their number, and a line that fills
    the width exactly takes one row. */
module TerminalLog {
  import opened Bytes
  import opened Console
  import opened Displays
  import opened Terminal
  import opened Invariants
  import Buffering
  import Draining

  const LF: Byte := 0x0A

  type Line = seq<Byte>

  predicate IsLine(line: Line, w: int) {
    |line| <= w && forall c <- line :: 0x20 <= c <= 0x7E
  }

  predicate AreLines(lines: seq<Line>, w: int) {
    forall i | 0 <= i < |lines| :: IsLine(lines[i], w)
  }

  function Stream(lines: seq<Line>): seq<Byte> {
    if lines == [] then [] else Stream(lines[..|lines| - 1]) + (lines[|lines| - 1] + [LF])
  }

  // ----- what the screen should show -----

  function Cells(s: seq<int>, a: Attribute): seq<Cell> {
    seq(|s|, i requires 0 <= i < |s| => Cell(s[i], a))
  }

  function LineRow(line: seq<int>, width: nat, blank: Cell): Row
    requires |line| <= width
  {
    Cells(line, blank.attr) + BlankRow(width - |line|, blank)
  }

  function LineRows(lines: seq<Line>, width: nat, blank: Cell): seq<Row>
    requires AreLines(lines, width)
  {
    seq(|lines|, i requires 0 <= i < |lines| => LineRow(lines[i], width, blank))
  }

  function BlankRows(n: int, width: nat, blank: Cell): seq<Row> {
    if n <= 0 then [] else seq(n, _ => BlankRow(width, blank))
  }

  function Max(a: int, b: int): int {
    if a > b then a else b
  }

  function Paper(scrollback: seq<Row>, lines: seq<Line>, h: int, width: nat, blank: Cell): seq<Row>
    requires AreLines(lines, width)
  {
    scrollback + LineRows(lines, width, blank) + BlankRows(Max(h - |lines|, 1), width, blank)
  }

  function Last<T>(s: seq<T>, n: nat): seq<T> {
    if n <= |s| then s[|s| - n..] else s
  }

  ghost predicate SameSize(d: Display, e: Display) {
    d.w == e.w && d.h == e.h && d.screen.width == e.screen.width && |d.screen.rows| == |e.screen.rows|
  }

  /** A display of the size of `like` after a reset with `scrollback` above the window and `lines` printed since. */
  ghost predicate Shows(d: Display, like: Display, scrollback: seq<Row>, lines: seq<Line>) {
    && Good(d) && SameSize(d, like) && AreLines(lines, d.w)
    && d.top == 0 && d.bottom == d.h - 1 && !d.origin && d.wrap && d.attr == DEFAULT_ATTRIBUTE
    && |scrollback| == d.WindowTop()
    && d.x == 0 && d.y == Min(|lines|, d.h - 1)
    && d.screen.rows == Last(Paper(scrollback, lines, d.h, d.screen.width, d.Blank()), |d.screen.rows|)
  }

  // ----- console lemmas -----

  lemma {:induction false} WriteFits(s: Screen, chars: seq<int>)
    requires s.Shaped() && 0 <= s.cy < |s.rows| && 0 <= s.cx && s.cx + |chars| <= s.width && s.cx < s.width
    ensures var row := s.rows[s.cy];
            s.Write(chars) == s.(rows := s.rows[s.cy := row[..s.cx] + Cells(chars, s.attr) + row[s.cx + |chars|..]],
                                 cx := Min(s.cx + |chars|, s.width - 1))
    decreases |chars|
  {
    var row := s.rows[s.cy];
    if chars == [] {
      assert row[..s.cx] + Cells(chars, s.attr) + row[s.cx..] == row;
    } else {
      var u := s.Put(chars[0]);
      var next := row[s.cx := Cell(chars[0], s.attr)];
      assert u.rows == s.rows[s.cy := next];
      if |chars| == 1 {
        assert chars[1..] == [];
        assert next == row[..s.cx] + Cells(chars, s.attr) + row[s.cx + 1..];
      } else {
        WriteFits(u, chars[1..]);
        assert next[..s.cx + 1] + Cells(chars[1..], s.attr) + next[s.cx + |chars|..]
            == row[..s.cx] + Cells(chars, s.attr) + row[s.cx + |chars|..];
      }
    }
  }

  lemma ScrollUpByOne(rows: seq<Row>, width: nat, cell: Cell)
    requires |rows| >= 2
    ensures MovedRows(rows, width, 1, |rows| - 1, 0, cell) == rows[1..] + [BlankRow(width, cell)]
  {
    var moved := MovedRows(rows, width, 1, |rows| - 1, 0, cell);
    forall r | 0 <= r < |rows| ensures moved[r] == (rows[1..] + [BlankRow(width, cell)])[r] {
      assert moved[r] == MovedRow(rows, width, 1, |rows| - 1, 0, cell, r);
    }
  }

  lemma RowIndexOrder(width: nat, a: int, r: int, c: int)
    requires 0 <= c < width
    ensures a <= r <==> a * width <= r * width + c
  {
    if a <= r {
      assert a * width <= r * width by { MulOrder(a, r, width); }
    } else {
      MulOrder(r + 1, a, width);
    }
  }

  lemma MulOrder(a: int, b: int, n: nat)
    requires a <= b
    ensures a * n <= b * n
  {
    assert (b - a) * n >= 0;
  }

  /** A fill of the last `n` whole rows blanks exactly those. */
  lemma FillWholeRows(rows: seq<Row>, width: nat, n: nat, cell: Cell)
    requires n <= |rows| && forall r | 0 <= r < |rows| :: |rows[r]| == width
    ensures FillRows(rows, width, (|rows| - n) * width, width * n, cell)
         == rows[..|rows| - n] + BlankRows(n, width, cell)
  {
    var from := |rows| - n;
    var filled := FillRows(rows, width, from * width, width * n, cell);
    forall r | 0 <= r < |rows| ensures filled[r] == (rows[..from] + BlankRows(n, width, cell))[r] {
      forall c | 0 <= c < width
        ensures InRange(width, from * width, width * n, r, c) <==> from <= r
      {
        RowIndexOrder(width, from, r, c);
        RowIndexOrder(width, |rows|, r, c);
        assert from * width + width * n == |rows| * width;
      }
      if from <= r {
        assert filled[r] == BlankRow(width, cell);
      } else {
        assert filled[r] == rows[r];
      }
    }
  }

  lemma SmallProduct(a: nat, b: nat)
    requires a <= MAX_SHORT && b <= MAX_SHORT
    ensures 0 <= a * b < DWORD_SIZE
  {
    MulOrder(a, MAX_SHORT, b);
    assert MAX_SHORT * b <= MAX_SHORT * MAX_SHORT;
  }

  // ----- the display, line by line -----

  lemma ResetShowsNothing(d: Display)
    requires Sized(d)
    ensures Shows(d.Reset(), d, d.screen.rows[..d.WindowTop()], [])
  {
    ResetIsGood(d);
    ResetRows(d);
    var e, blank := d.Reset(), Cell(SPACE, DEFAULT_ATTRIBUTE);
    assert e == d.(screen := e.screen, x := 0, y := 0, savedX := 0, savedY := 0, top := 0, bottom := d.h - 1, origin := false,
                   wrap := true, attr := DEFAULT_ATTRIBUTE) && e.screen.width == d.screen.width;
    EmptyPaper(d.screen.rows[..d.WindowTop()], d.h, d.screen.width, blank);
    hide Display.Reset, Paper, Good, BlankRows;
  }

  lemma ResetRows(d: Display)
    requires Sized(d)
    ensures d.Reset().screen.rows
         == d.screen.rows[..d.WindowTop()] + BlankRows(d.h, d.screen.width, Cell(SPACE, DEFAULT_ATTRIBUTE))
  {
    ResetFills(d);
    FillWholeRows(d.screen.rows, d.screen.width, d.h, Cell(SPACE, DEFAULT_ATTRIBUTE));
    hide FillRows, BlankRows, Display.Reset;
  }

  lemma ResetFills(d: Display)
    requires Sized(d)
    ensures 0 <= d.WindowTop() * d.screen.width && 0 < d.screen.width * d.h
    ensures d.Reset().screen.rows
         == FillRows(d.screen.rows, d.screen.width, d.WindowTop() * d.screen.width, d.screen.width * d.h, Cell(SPACE, DEFAULT_ATTRIBUTE))
  {
    hide FillRows;
    SmallProduct(d.screen.width, d.h);
    MulOrder(1, d.screen.width, d.h);
    MulOrder(0, d.WindowTop(), d.screen.width);
    assert Dword(d.screen.width * d.h) == d.screen.width * d.h;
  }

  lemma EmptyPaper(scrollback: seq<Row>, h: int, width: nat, blank: Cell)
    requires h >= 2
    ensures AreLines([], width) && Paper(scrollback, [], h, width, blank) == scrollback + BlankRows(h, width, blank)
  {
    assert LineRows([], width, blank) == [];
    hide BlankRows;
  }

  lemma PaperGrows(scrollback: seq<Row>, lines: seq<Line>, line: Line, h: int, width: nat, blank: Cell)
    requires AreLines(lines, width) && IsLine(line, width) && h >= 2
    ensures AreLines(lines + [line], width)
    ensures var old_ := Paper(scrollback, lines, h, width, blank);
            var k := |scrollback| + |lines|;
            && |old_| == k + Max(h - |lines|, 1)
            && old_[k] == BlankRow(width, blank)
            && Paper(scrollback, lines + [line], h, width, blank)
            == old_[k := LineRow(line, width, blank)] + (if |lines| < h - 1 then [] else [BlankRow(width, blank)])
  {
    var rows := LineRows(lines, width, blank);
    assert LineRows(lines + [line], width, blank) == rows + [LineRow(line, width, blank)];
    var n := Max(h - |lines|, 1);
    var blanks := BlankRows(n, width, blank);
    assert blanks[0 := LineRow(line, width, blank)] == [LineRow(line, width, blank)] + BlankRows(n - 1, width, blank);
    var old_ := Paper(scrollback, lines, h, width, blank);
    assert old_ == scrollback + rows + blanks;
    assert old_[|scrollback| + |lines| := LineRow(line, width, blank)]
        == scrollback + rows + blanks[0 := LineRow(line, width, blank)];
    if |lines| >= h - 1 {
      assert BlankRows(1, width, blank) == [BlankRow(width, blank)];
    }
  }

  /** The cursor is on the first blank row below the lines. */
  lemma CursorRow(d: Display, like: Display, scrollback: seq<Row>, lines: seq<Line>)
    requires Shows(d, like, scrollback, lines)
    ensures var paper := Paper(scrollback, lines, d.h, d.screen.width, d.Blank());
            var n, row := |d.screen.rows|, d.y + d.WindowTop();
            && d.w <= d.screen.width && 2 <= d.h <= n <= |paper| && |scrollback| + |lines| == |paper| - n + row && 0 <= row < n
            && d.screen.rows == paper[|paper| - n..]
            && d.screen.rows[row] == BlankRow(d.screen.width, d.Blank())
  {
    PaperGrows(scrollback, lines, [], d.h, d.screen.width, d.Blank());
    hide Paper;
  }

  /** The display with the line written and its line feed not yet done. */
  function Written(d: Display, line: Line): Display
    requires IsLine(line, d.screen.width)
  {
    d.(x := |line|,
       screen := d.screen.(rows := PutRow(d.screen.rows, d.y + d.WindowTop(), LineRow(line, d.screen.width, d.Blank())),
                           cx := Min(|line|, d.screen.width - 1)))
  }

  function PutRow(rows: seq<Row>, y: int, row: Row): seq<Row> {
    if 0 <= y < |rows| then rows[y := row] else rows
  }

  lemma LineIsWritten(d: Display, like: Display, scrollback: seq<Row>, lines: seq<Line>, line: Line)
    requires Shows(d, like, scrollback, lines) && IsLine(line, d.w)
    ensures EmitAll(d, line) == Written(d, line)
  {
    CursorRow(d, like, scrollback, lines);
    Draining.FittingCharacters(d, line);
    WriteFits(d.screen, line);
    var row := d.screen.rows[d.y + d.WindowTop()];
    hide Paper, EmitAll, Shows;
    assert row[..0] + Cells(line, d.attr) + row[|line|..] == LineRow(line, d.screen.width, d.Blank());
  }

  lemma LineIsShown(d: Display, like: Display, scrollback: seq<Row>, lines: seq<Line>, line: Line)
    requires Shows(d, like, scrollback, lines) && IsLine(line, d.w)
    ensures Shows(EmitAll(d, line).Linefeed(true), like, scrollback, lines + [line])
  {
    hide Good, EmitAll, Display.Linefeed, Paper, LineRow, Written, AreLines;
    LineIsWritten(d, like, scrollback, lines, line);
    EmitAllIsGood(d, line);
    LinefeedIsGood(EmitAll(d, line), true);
    LinefeedShows(d, line, |lines|);
    RowsAfterLine(d, like, scrollback, lines, line);
  }

  /** The rows after one more line, with and without the scroll that follows it on the last row. */
  lemma RowsAfterLine(d: Display, like: Display, scrollback: seq<Row>, lines: seq<Line>, line: Line)
    requires Shows(d, like, scrollback, lines) && IsLine(line, d.w)
    ensures AreLines(lines + [line], d.w) && AreLines(lines + [line], d.screen.width)
    ensures |Written(d, line).screen.rows| == |d.screen.rows|
    ensures var rows, blank := Written(d, line).screen.rows, d.Blank();
            Last(Paper(scrollback, lines + [line], d.h, d.screen.width, blank), |rows|)
            == if |lines| < d.h - 1 then rows else rows[1..] + [BlankRow(d.screen.width, blank)]
  {
    CursorRow(d, like, scrollback, lines);
    WiderLines(lines, line, d.w, d.screen.width);
    hide Shows, AreLines, IsLine, Paper, LineRow, BlankRow;
    PaperAfterLine(scrollback, lines, line, d.h, d.screen.width, d.Blank(), d.screen.rows, d.y + d.WindowTop());
  }

  /** The same on paper: the tail of it that fits the buffer. */
  lemma PaperAfterLine(scrollback: seq<Row>, lines: seq<Line>, line: Line, h: int, width: nat, blank: Cell,
                       rows: seq<Row>, row: nat)
    requires AreLines(lines, width) && IsLine(line, width) && AreLines(lines + [line], width) && 2 <= h
    requires var paper := Paper(scrollback, lines, h, width, blank);
             && row < |rows| <= |paper| && rows == paper[|paper| - |rows|..]
             && |scrollback| + |lines| == |paper| - |rows| + row
    ensures var written := rows[row := LineRow(line, width, blank)];
            Last(Paper(scrollback, lines + [line], h, width, blank), |rows|)
            == if |lines| < h - 1 then written else written[1..] + [BlankRow(width, blank)]
  {
    PaperGrows(scrollback, lines, line, h, width, blank);
    hide AreLines, IsLine;
    var paper := Paper(scrollback, lines, h, width, blank);
    TailAfterLine(paper, |rows|, row, LineRow(line, width, blank), BlankRow(width, blank));
    hide Paper, LineRow, BlankRow;
  }

  lemma WiderLines(lines: seq<Line>, line: Line, w: int, width: int)
    requires w <= width && AreLines(lines, w) && IsLine(line, w)
    ensures AreLines(lines, width) && IsLine(line, width) && AreLines(lines + [line], w)
  {
  }

  lemma TailAfterLine(paper: seq<Row>, n: nat, row: nat, line: Row, blank: Row)
    requires row < n <= |paper|
    ensures var put := paper[|paper| - n + row := line];
            var rows := paper[|paper| - n..][row := line];
            && put[|put| - n..] == rows
            && (put + [blank])[|put| + 1 - n..] == rows[1..] + [blank]
  {
  }

  /** The line feed after a line: one row down, or one row up for everything else. */
  lemma LinefeedShows(d: Display, line: Line, k: nat)
    requires Good(d) && IsLine(line, d.w)
    requires d.top == 0 && d.bottom == d.h - 1 && !d.origin && d.x == 0 && d.y == Min(k, d.h - 1)
    ensures var e := Written(d, line);
            var f := e.Linefeed(true);
            && f == d.(y := Min(k + 1, d.h - 1), screen := f.screen)
            && f.screen.width == d.screen.width
            && f.screen.rows == if k < d.h - 1 then e.screen.rows
                                else e.screen.rows[1..] + [BlankRow(d.screen.width, d.Blank())]
  {
    var e := Written(d, line);
    ScrollUpByOne(e.screen.rows, d.screen.width, d.Blank());
    hide MovedRows, LineRow;
  }

  // ----- the terminal -----

  ghost predicate Listening(t: Term) {
    t.state.Normal? && !t.useG1 && t.g0.Ascii? && t.modes.newLine && t.out == [] && t.cap >= 1
  }

  lemma {:induction false} AddAllThenFlush(t: Term, s: seq<int>)
    requires t.cap >= 1
    ensures t.AddAll(s).Flush() == t.(d := EmitAll(t.d, t.out + s), out := [])
    decreases |s|
  {
    hide EmitAll;
    if s == [] {
      assert t.out + s == t.out;
    } else {
      AddAllThenFlush(t.Add(s[0]), s[1..]);
      EmitAllConcat(t.d, t.out + [s[0]], s[1..]);
      assert t.out + [s[0]] + s[1..] == t.out + s;
      assert [] + s[1..] == s[1..];
    }
  }

  lemma {:induction false} PlainTextIsAdded(t: Term, line: Line)
    requires t.state.Normal? && !t.useG1 && t.g0.Ascii? && forall c <- line :: 0x20 <= c <= 0x7E
    ensures t.Run(line) == t.AddAll(line)
    decreases |line|
  {
    if line != [] {
      assert line[0] in line;
      assert t.Step(line[0]) == t.Add(line[0]);
      assert forall c <- line[1..] :: c in line;
      PlainTextIsAdded(t.Add(line[0]), line[1..]);
    }
  }

  lemma LineIsRun(t: Term, line: Line)
    requires Listening(t) && IsLine(line, t.d.w)
    ensures t.Run(line + [LF]) == t.Show(EmitAll(t.d, line).Linefeed(true))
  {
    RunConcat(t, line, [LF]);
    PlainTextIsAdded(t, line);
    AddAllThenFlush(t, line);
    assert [] + line == line;
    RunOne(t.AddAll(line), LF);
    hide EmitAll, Term.AddAll, Term.Run;
    AddAllFrame(t, line);
  }

  lemma AddAllFrame(t: Term, s: seq<int>)
    requires t.cap >= 1
    ensures var u := t.AddAll(s); u == t.(d := u.d, out := u.out)
  {
    Buffering.AddAllImmediate(t, s);
  }

  /** One more line, from wherever the lines before it have left the terminal. */
  lemma NextLineIsShown(u: Term, like: Display, scrollback: seq<Row>, init: seq<Line>, last: Line)
    requires Listening(u) && Shows(u.d, like, scrollback, init) && IsLine(last, u.d.w)
    ensures var v := u.Run(last + [LF]); v == u.Show(v.d) && Shows(v.d, like, scrollback, init + [last])
  {
    LineIsRun(u, last);
    hide Shows;
    LineIsShown(u.d, like, scrollback, init, last);
  }

  lemma LastLine(lines: seq<Line>, w: int)
    requires lines != [] && AreLines(lines, w)
    ensures var init, last := lines[..|lines| - 1], lines[|lines| - 1];
            AreLines(init, w) && IsLine(last, w) && Stream(lines) == Stream(init) + (last + [LF])
  {
    var last := lines[|lines| - 1];
    assert last in lines && forall l <- lines[..|lines| - 1] :: l in lines;
  }

  lemma {:induction false} LinesAreShown(t: Term, like: Display, scrollback: seq<Row>, lines: seq<Line>)
    requires Listening(t) && Shows(t.d, like, scrollback, []) && AreLines(lines, t.d.w)
    ensures var u := t.Run(Stream(lines)); u == t.Show(u.d) && u.d.w == t.d.w && Shows(u.d, like, scrollback, lines)
    decreases |lines|
  {
    if lines == [] {
      assert t.Run([]) == t && t == t.Show(t.d);
    } else {
      hide Shows, Term.Run, Stream, AreLines, IsLine;
      var init, last := lines[..|lines| - 1], lines[|lines| - 1];
      LastLine(lines, t.d.w);
      LinesAreShown(t, like, scrollback, init);
      var u := t.Run(Stream(init));
      RunConcat(t, Stream(init), last + [LF]);
      NextLineIsShown(u, like, scrollback, init, last);
      KeepsWidth(u.d, u.Run(last + [LF]).d, like, scrollback, init, lines);
      assert init + [last] == lines;
    }
  }

  lemma KeepsWidth(d: Display, e: Display, like: Display, scrollback: seq<Row>, before: seq<Line>, after: seq<Line>)
    requires Shows(d, like, scrollback, before)
    ensures Shows(e, like, scrollback, after) ==> e.w == d.w
  {
  }

  lemma TerminalShows(t: Term, lines: seq<Line>)
    requires Sized(t.d) && t.cap == OUTPUT_BUFFER_SIZE && AreLines(lines, t.d.w)
    ensures Shows(t.Reset().Process(Stream(lines)).d, t.d, t.d.screen.rows[..t.d.WindowTop()], lines)
  {
    hide Shows, AreLines, Term.Run, Stream, Display.Reset, EmitAll;
    ResetShowsNothing(t.d);
    WidthStays(t.d);
    LinesAreShown(t.Reset(), t.d, t.d.screen.rows[..t.d.WindowTop()], lines);
    Buffering.EmitNothing(t.Reset().Run(Stream(lines)).d);
  }

  lemma WidthStays(d: Display)
    ensures d.Reset().w == d.w
  {
  }

  lemma WhatIsShown(d: Display, like: Display, scrollback: seq<Row>, lines: seq<Line>)
    requires Shows(d, like, scrollback, lines)
    ensures var n, h, width := |like.screen.rows|, like.h, like.screen.width;
            && AreLines(lines, width)
            && d.screen.rows == Last(Paper(scrollback, lines, h, width, Cell(SPACE, DEFAULT_ATTRIBUTE)), n)
            && d.x == 0 && d.y == Min(|lines|, h - 1)
            && d.screen.cx == 0 && d.screen.cy == n - h + d.y
  {
    hide Paper, Last;
  }

  /** Lines of up to a window's width of printable characters, each ended by a line feed, printed
      after a reset: the buffer ends as the last rows of (scrollback, lines, blank rows), the cursor
      at the start of the row below the last line, or of the last row. */
  lemma TerminalIsALog(t: Term, lines: seq<Line>)
    requires Sized(t.d) && t.cap == OUTPUT_BUFFER_SIZE && AreLines(lines, t.d.w)
    ensures var n, h, width := |t.d.screen.rows|, t.d.h, t.d.screen.width;
            var d := t.Reset().Process(Stream(lines)).d;
            && d.screen.rows == Last(Paper(t.d.screen.rows[..n - h], lines, h, width, Cell(SPACE, DEFAULT_ATTRIBUTE)), n)
            && d.x == 0 && d.y == Min(|lines|, h - 1)
            && d.screen.cx == 0 && d.screen.cy == n - h + d.y
  {
    var scrollback := t.d.screen.rows[..t.d.WindowTop()];
    var d := t.Reset().Process(Stream(lines)).d;
    TerminalShows(t, lines);
    hide *;
    WhatIsShown(d, t.d, scrollback, lines);
  }
}
