/** Erase in Display: which cells each form touches, and exactly when "beginning to cursor"
    and "cursor to end" split the window between them. */
module Erasing {
  import opened Bytes
  import opened Console
  import opened ControlSequences
  import opened Displays
  import opened Invariants
  import opened Terminal
  import Draining
  import Effects
  import TerminalLog

  const MARK := Cell(0xFFFF, 0)

  /** The display with every cell of the buffer set to a mark no erase writes. */
  function Marked(d: Display): Display {
    d.(screen := d.screen.(rows := seq(|d.screen.rows|, _ => BlankRow(d.screen.width, MARK))))
  }

  ghost predicate InGrid(d: Display, r: int, c: int) {
    0 <= r < |d.screen.rows| && 0 <= c < d.screen.width
  }

  /** The row the cursor is in, which in origin mode may lie below the buffer. */
  function CursorRow(d: Display): int {
    d.WindowTop() + d.y + d.Margin()
  }

  /** Whether an erase with result `e` of the marked display `m` overwrote the cell in row `r`, column `c`. */
  ghost predicate TouchedIn(e: Display, r: int, c: int) {
    0 <= r < |e.screen.rows| && 0 <= c < |e.screen.rows[r]| && e.screen.rows[r][c] != MARK
  }

  ghost predicate Touched(d: Display, kind: int, r: int, c: int) {
    TouchedIn(Marked(d).EraseDisplay(kind), r, c)
  }

  /** The two partial erases share no cell and together erase what the full erase does. */
  ghost predicate Splits(d: Display) {
    forall r, c | InGrid(d, r, c) ::
      && !(Touched(d, ERASE_BEGINNING_TO_CURSOR, r, c) && Touched(d, ERASE_CURSOR_TO_END, r, c))
      && (Touched(d, ERASE_ALL, r, c) <==>
          Touched(d, ERASE_BEGINNING_TO_CURSOR, r, c) || Touched(d, ERASE_CURSOR_TO_END, r, c))
  }

  /** A pending wrap in origin mode below a top margin: "cursor to end" starts without the margin. */
  predicate Misplaced(d: Display) {
    d.x == d.w && d.origin && d.top > 0 && d.y < d.h - 1 && d.y + d.top + 1 != d.h
  }

  lemma MarkedFill(d: Display, col: int, row: int, len: int, r: int, c: int)
    requires Sane(d) && InGrid(d, r, c)
    ensures var width, n := d.screen.width, |d.screen.rows|;
            TouchedIn(Marked(d).Erase(col, row, len), r, c)
            <==> 0 <= col < width && 0 <= d.WindowTop() + row < n
                 && InRange(width, (d.WindowTop() + row) * width + col, Dword(len), r, c)
  {
    var m := Marked(d);
    var start := (d.WindowTop() + row) * d.screen.width + col;
    assert d.Blank() != MARK;
    var filled := FillRows(m.screen.rows, m.screen.width, start, Dword(len), m.Blank());
    assert filled[r] == FillRow(m.screen.rows[r], m.screen.width, start, Dword(len), m.Blank(), r);
  }

  /** `a` whole rows before `r` put the cell index at least `a * width` in. */
  lemma IndexOrder(width: nat, a: int, x: int, r: int, c: int)
    requires 0 <= c < width && 0 <= x < width
    ensures a * width + x <= r * width + c <==> (a < r || (a == r && x <= c))
  {
    TerminalLog.RowIndexOrder(width, a, r, c);
    TerminalLog.RowIndexOrder(width, a + 1, r, c);
    assert (a + 1) * width == a * width + width;
    TerminalLog.RowIndexOrder(width, r + 1, a, x);
    assert (r + 1) * width == r * width + width;
  }

  lemma RowProduct(a: int, b: int, width: nat)
    ensures (a + b) * width == a * width + b * width
    ensures (a - b) * width == a * width - b * width
  {
  }

  lemma SmallSpan(rows: int, width: nat, x: int)
    requires 0 <= rows <= 2 * MAX_SHORT + 1 && width <= MAX_SHORT && 0 <= x <= width
    ensures 0 <= rows * width + x < DWORD_SIZE
  {
    TerminalLog.MulOrder(rows, 2 * MAX_SHORT + 1, width);
    TerminalLog.MulOrder(0, rows, width);
  }

  lemma AllTouchesTheWindow(d: Display, r: int, c: int)
    requires Sane(d) && InGrid(d, r, c)
    ensures Touched(d, ERASE_ALL, r, c) <==> d.WindowTop() <= r
  {
    var width, base := d.screen.width, d.WindowTop();
    SmallSpan(d.h, width, 0);
    MarkedFill(d, 0, 0, width * d.h, r, c);
    assert Touched(d, ERASE_ALL, r, c) <==> TouchedIn(Marked(d).Erase(0, 0, width * d.h), r, c);
    assert Dword(width * d.h) == d.h * width;
    assert 0 <= base && base + d.h == |d.screen.rows|;
    hide *;
    WholeRows(width, base, d.h, r, c);
  }

  lemma WholeRows(width: nat, a: int, n: nat, r: int, c: int)
    requires 0 <= c < width
    ensures InRange(width, a * width + 0, n * width, r, c) <==> a <= r < a + n
  {
    RowProduct(a, n, width);
    IndexOrder(width, a, 0, r, c);
    IndexOrder(width, a + n, 0, r, c);
  }

  /** "Beginning to cursor" stops before the cursor cell; a pending wrap counts as the row's end. */
  lemma BeginningTouches(d: Display, r: int, c: int)
    requires Sane(d) && InGrid(d, r, c)
    ensures var row := d.WindowTop() + d.y + d.Margin();
            Touched(d, ERASE_BEGINNING_TO_CURSOR, r, c)
            <==> d.WindowTop() <= r && (r < row || (r == row && (d.x == d.w || c < d.x)))
  {
    var width, base := d.screen.width, d.WindowTop();
    var rows := d.y + d.Margin();
    MarkedFill(d, 0, 0, rows * width + d.x, r, c);
    MarkedFill(d, 0, 0, (rows + 1) * width, r, c);
    SmallSpan(rows, width, d.x);
    SmallSpan(rows + 1, width, 0);
    RowProduct(base, rows, width);
    RowProduct(base, rows + 1, width);
    IndexOrder(width, base, 0, r, c);
    IndexOrder(width, base + rows + 1, 0, r, c);
    if d.x < d.w {
      IndexOrder(width, base + rows, d.x, r, c);
    }
    hide InRange, TouchedIn, Sane;
  }

  /** "Cursor to end" starts at the cursor cell. */
  lemma EndTouchesFromCursor(d: Display, r: int, c: int)
    requires Sane(d) && InGrid(d, r, c) && d.x < d.w
    ensures var row := d.WindowTop() + d.y + d.Margin();
            Touched(d, ERASE_CURSOR_TO_END, r, c) <==> row < r || (r == row && d.x <= c)
  {
    var width, n, base := d.screen.width, |d.screen.rows|, d.WindowTop();
    var rows := d.y + d.Margin();
    MarkedFill(d, d.x, rows, (d.h - d.y - d.Margin()) * width - d.x, r, c);
    if rows < d.h {
      SmallSpan(d.h - rows - 1, width, width - d.x);
      RowProduct(d.h - rows, 1, width);
      RowProduct(base + rows, d.h - rows, width);
      IndexOrder(width, base + rows, d.x, r, c);
      IndexOrder(width, n, 0, r, c);
    }
  }

  /** After a pending wrap it starts on the next row, which it counts from the window's top
      even in origin mode, and its length wraps around when the margin takes it below zero. */
  lemma EndTouchesAfterWrap(d: Display, r: int, c: int)
    requires Sane(d) && InGrid(d, r, c) && d.x == d.w
    ensures var first, rows := d.WindowTop() + d.y + 1, d.h - d.y - d.Margin() - 1;
            Touched(d, ERASE_CURSOR_TO_END, r, c)
            <==> d.y < d.h - 1 && first <= r && (rows < 0 || r < first + rows)
  {
    var width, n, base := d.screen.width, |d.screen.rows|, d.WindowTop();
    var rows := d.h - d.y - d.Margin() - 1;
    var first := base + d.y + 1;
    if d.y < d.h - 1 {
      MarkedFill(d, 0, d.y + 1, rows * width, r, c);
      IndexOrder(width, first, 0, r, c);
      if rows >= 0 {
        SmallSpan(rows, width, 0);
        RowProduct(first, rows, width);
        IndexOrder(width, first + rows, 0, r, c);
      } else {
        SmallSpan(-rows, width, 0);
        RowProduct(0, -rows, width);
        TerminalLog.MulOrder(1, -rows, width);
        SmallSpan(n, width, 0);
        IndexOrder(width, n, 0, r, c);
        NegativeSpan(rows, width, first, n);
      }
    }
  }

  /** A negative length becomes a DWORD large enough to reach past the end of any buffer. */
  lemma NegativeSpan(rows: int, width: nat, first: int, n: nat)
    requires -MAX_SHORT <= rows < 0 && 1 <= width <= MAX_SHORT && 0 <= first <= n <= MAX_SHORT
    ensures first * width + Dword(rows * width) >= n * width && Dword(rows * width) > 0
  {
    TerminalLog.MulOrder(-rows, MAX_SHORT, width);
    TerminalLog.MulOrder(n, MAX_SHORT, width);
    TerminalLog.MulOrder(0, first, width);
    TerminalLog.MulOrder(1, -rows, width);
    assert MAX_SHORT * width <= MAX_SHORT * MAX_SHORT;
    assert -rows * width == -(rows * width);
    assert Dword(rows * width) == rows * width + DWORD_SIZE;
  }

  /** The cells each form touches: the window, its cells before the cursor, or those from the cursor on. */
  predicate InDisplayPart(d: Display, kind: int, r: int, c: int) {
    var row := CursorRow(d);
    || (kind == ERASE_ALL && d.WindowTop() <= r)
    || (kind == ERASE_BEGINNING_TO_CURSOR && d.WindowTop() <= r && (r < row || (r == row && (d.x == d.w || c < d.x))))
    || (kind == ERASE_CURSOR_TO_END && d.x < d.w && (row < r || (r == row && d.x <= c)))
    || (kind == ERASE_CURSOR_TO_END && d.x == d.w && InRowsAfter(d, r))
  }

  /** The rows erased to the end with a wrap pending: from the one after the tracked row on, as many as
      the window has below the margin too, or all there are when the margin takes that below none. */
  predicate InRowsAfter(d: Display, r: int) {
    var first, rows := d.WindowTop() + d.y + 1, d.h - d.y - d.Margin() - 1;
    d.y < d.h - 1 && first <= r && (rows < 0 || r < first + rows)
  }

  /** `e` is `d` with that part of the buffer blank. */
  ghost predicate DisplayErased(d: Display, e: Display, kind: int)
    requires d.screen.Shaped()
  {
    && e == d.(screen := d.screen.(rows := e.screen.rows)) && |e.screen.rows| == |d.screen.rows| && e.screen.Shaped()
    && forall r, c | InGrid(d, r, c) :: e.screen.rows[r][c] ==
         if InDisplayPart(d, kind, r, c) then d.Blank() else d.screen.rows[r][c]
  }

  lemma EraseDisplayErases(d: Display, kind: int)
    requires Sane(d)
    ensures DisplayErased(d, d.EraseDisplay(kind), kind)
  {
    EraseKeepsTheRest(d, kind);
    forall r, c | InGrid(d, r, c) ensures Touched(d, kind, r, c) <==> InDisplayPart(d, kind, r, c) {
      DisplayTouches(d, kind, r, c);
    }
    hide Touched, InDisplayPart, Display.EraseDisplay;
  }

  lemma DisplayTouches(d: Display, kind: int, r: int, c: int)
    requires Sane(d) && InGrid(d, r, c)
    ensures Touched(d, kind, r, c) <==> InDisplayPart(d, kind, r, c)
  {
    if kind == ERASE_ALL {
      AllTouchesTheWindow(d, r, c);
      hide Touched;
    } else if kind == ERASE_BEGINNING_TO_CURSOR {
      BeginningTouches(d, r, c);
      hide Touched;
    } else if kind == ERASE_CURSOR_TO_END && d.x < d.w {
      EndTouchesFromCursor(d, r, c);
      hide Touched;
    } else if kind == ERASE_CURSOR_TO_END {
      EndTouchesAfterWrap(d, r, c);
      hide Touched;
    }
  }

  /** `e` is `d` with those cells blank that are no longer marked in `m`, and nothing else changed. */
  ghost predicate KeepsTheRest(d: Display, e: Display, m: Display)
    requires d.screen.Shaped()
  {
    && e == d.(screen := d.screen.(rows := e.screen.rows)) && |e.screen.rows| == |d.screen.rows| && e.screen.Shaped()
    && forall r, c | InGrid(d, r, c) :: e.screen.rows[r][c] == if TouchedIn(m, r, c) then d.Blank() else d.screen.rows[r][c]
  }

  /** The marked copy shows what an erase does to any other contents. */
  lemma EraseKeepsTheRest(d: Display, kind: int)
    requires Sane(d)
    ensures KeepsTheRest(d, d.EraseDisplay(kind), Marked(d).EraseDisplay(kind))
  {
    hide KeepsTheRest, Display.Erase;
    var width, rest := d.screen.width, d.h - d.y - d.Margin();
    MarkedKeepsTheRest(d);
    FillKeepsTheRest(d, d.x, d.y + d.Margin(), rest * width - d.x);
    FillKeepsTheRest(d, 0, d.y + 1, (rest - 1) * width);
    FillKeepsTheRest(d, 0, 0, (d.y + d.Margin()) * width + d.x);
    FillKeepsTheRest(d, 0, 0, (d.y + d.Margin() + 1) * width);
    FillKeepsTheRest(d, 0, 0, width * d.h);
    hide Sane, Display.Margin;
  }

  lemma MarkedKeepsTheRest(d: Display)
    requires Sane(d)
    ensures KeepsTheRest(d, d, Marked(d))
  {
  }

  lemma FillKeepsTheRest(d: Display, col: int, row: int, len: int)
    requires Sane(d)
    ensures KeepsTheRest(d, d.Erase(col, row, len), Marked(d).Erase(col, row, len))
  {
    var width, start, n := d.screen.width, (d.WindowTop() + row) * d.screen.width + col, Dword(len);
    var m := Marked(d).Erase(col, row, len);
    OperationsKeepShape(d.screen, 0, col, d.WindowTop() + row, n, 0, 0, 0, d.Blank());
    forall r, c | InGrid(d, r, c)
      ensures d.Erase(col, row, len).screen.rows[r][c] == if TouchedIn(m, r, c) then d.Blank() else d.screen.rows[r][c]
    {
      MarkedFill(d, col, row, len, r, c);
      if 0 <= col < width && 0 <= d.WindowTop() + row < |d.screen.rows| && n > 0 {
        assert d.Erase(col, row, len).screen.rows[r] == FillRow(d.screen.rows[r], width, start, n, d.Blank(), r);
      }
      hide InRange, TouchedIn, Sane, Marked;
    }
  }

  /** The two partial erases partition the window exactly when the cursor is not misplaced:
      always outside origin mode, pending wrap included, and in origin mode without one. */
  lemma ErasesSplitExactlyUnlessMisplaced(d: Display)
    requires Sane(d)
    ensures Splits(d) <==> !Misplaced(d)
  {
    if Misplaced(d) {
      var r := d.WindowTop() + d.y + 1;
      assert InGrid(d, r, 0);
      BeginningTouches(d, r, 0);
      EndTouchesAfterWrap(d, r, 0);
    } else {
      forall r, c | InGrid(d, r, c)
        ensures !(Touched(d, ERASE_BEGINNING_TO_CURSOR, r, c) && Touched(d, ERASE_CURSOR_TO_END, r, c))
        ensures Touched(d, ERASE_ALL, r, c) <==>
                Touched(d, ERASE_BEGINNING_TO_CURSOR, r, c) || Touched(d, ERASE_CURSOR_TO_END, r, c)
      {
        AllTouchesTheWindow(d, r, c);
        BeginningTouches(d, r, c);
        if d.x < d.w {
          EndTouchesFromCursor(d, r, c);
        } else {
          EndTouchesAfterWrap(d, r, c);
        }
        hide Touched;
      }
    }
  }

  /** In a window of three rows or more a program gets there: a scroll region from row 2 on, origin mode,
      and a full line of text. The two partial erases then miss or share cells. */
  lemma BytesMisplaceTheCursor(t: Term, line: seq<Byte>)
    requires Sized(t.d) && t.d.h >= 3 && t.cap == OUTPUT_BUFFER_SIZE
    requires |line| == t.d.w && forall c <- line :: 0x20 <= c <= 0x7E
    ensures var d := t.Reset().Process(Sequence(false, [Given(2), Given(3)], 'r' as int) + Sequence(true, [Given(6)], 'h' as int) + line).d;
            Misplaced(d) && Sane(d) && !Splits(d)
  {
    var first, second := Sequence(false, [Given(2), Given(3)], 'r' as int), Sequence(true, [Given(6)], 'h' as int);
    var a := t.Reset();
    var b := a.Run(first);
    var c := b.Run(second);
    ResetIsGood(t.d);
    assert Listens(a, t.d.w, t.d.h);
    hide *;
    RegionIsSet(a, t.d.w, t.d.h);
    OriginIsSet(b, t.d.w, t.d.h);
    FullLine(c, line, t.d.w, t.d.h);
    RunConcat(a, first, second);
    LastCall(a, first + second, line);
    MisplacedThere(c.d, c.Process(line).d);
    ErasesSplitExactlyUnlessMisplaced(c.Process(line).d);
  }

  lemma LastCall(t: Term, a: seq<Byte>, b: seq<Byte>)
    ensures t.Process(a + b) == t.Run(a).Process(b)
  {
    RunConcat(t, a, b);
    hide Term.Run;
  }

  lemma MisplacedThere(d: Display, e: Display)
    requires Good(d) && Good(e) && e == d.(screen := e.screen, x := d.w) && d.y == 0 && d.origin && d.top == 1 && d.h >= 3
    ensures Misplaced(e) && Sane(e)
  {
  }

  /** The terminal takes text, in ASCII, with the cursor home in a window of that size. */
  ghost predicate Listens(t: Term, w: int, h: int) {
    && Good(t.d) && t.d.w == w && t.d.h == h && t.d.y == 0 && t.d.x == 0
    && t.out == [] && t.cap == OUTPUT_BUFFER_SIZE && t.state.Normal? && !t.useG1 && t.g0.Ascii?
  }

  lemma RegionIsSet(t: Term, w: int, h: int)
    requires Listens(t, w, h) && h >= 3
    ensures var u := t.Run(Sequence(false, [Given(2), Given(3)], 'r' as int)); Listens(u, w, h) && u.d.top == 1
  {
    var args := [Given(2), Given(3)];
    assert Effects.OneBased(args, 0) == 2 && args[1].Value() == 3;
    Effects.MarginsAreSetExactly(t, false, args);
    hide Term.Run, Sequence;
  }

  lemma OriginIsSet(t: Term, w: int, h: int)
    requires Listens(t, w, h) && t.d.top == 1
    ensures var u := t.Run(Sequence(true, [Given(6)], 'h' as int)); Listens(u, w, h) && u.d.top == 1 && u.d.origin
  {
    var args := [Given(6)];
    assert args[0].Value() == 6;
    Effects.ModeIsSet(t, true, args);
    hide Term.Run, Sequence;
    var u := t.Run(Sequence(true, args, 'h' as int));
    assert Effects.ModeOn(u, true, 6);
  }

  /** A full line of text ends in a pending wrap. */
  lemma FullLine(t: Term, line: seq<Byte>, w: int, h: int)
    requires Listens(t, w, h) && |line| == w && forall c <- line :: 0x20 <= c <= 0x7E
    ensures var d := t.Process(line).d; Good(d) && Good(t.d) && d == t.d.(screen := d.screen, x := t.d.w)
    ensures t.d.y == 0 && t.d.h == h && t.d.w == w
  {
    TerminalLog.PlainTextIsAdded(t, line);
    TerminalLog.AddAllThenFlush(t, line);
    assert [] + line == line;
    Draining.FittingCharacters(t.d, line);
    EmitAllIsGood(t.d, line);
    hide Term.Run, Term.AddAll, EmitAll, Good;
  }

  // ----- Erase in Line -----

  /** The columns each form touches: from the cursor on, up to and including the cursor, or all. */
  predicate InLinePart(d: Display, kind: int, c: int) {
    || (kind == ERASE_CURSOR_TO_END && d.x < d.w && d.x <= c)
    || (kind == ERASE_BEGINNING_TO_CURSOR && (c <= d.x || d.x >= d.w))
    || kind == ERASE_ALL
  }

  /** `e` is `d` with that part of the cursor row blank. */
  ghost predicate LineErased(d: Display, e: Display, kind: int)
    requires d.screen.Shaped()
  {
    && e == d.(screen := d.screen.(rows := e.screen.rows)) && |e.screen.rows| == |d.screen.rows| && e.screen.Shaped()
    && forall r, c | InGrid(d, r, c) :: e.screen.rows[r][c] ==
         if r == CursorRow(d) && InLinePart(d, kind, c) then d.Blank() else d.screen.rows[r][c]
  }

  lemma EraseLineErases(d: Display, kind: int)
    requires Sane(d)
    ensures LineErased(d, d.EraseLine(kind), kind)
  {
    if kind == ERASE_CURSOR_TO_END && d.x < d.w {
      RowPartErased(d, d.x, d.screen.width - d.x);
    } else if kind == ERASE_BEGINNING_TO_CURSOR {
      RowPartErased(d, 0, if d.x < d.w then d.x + 1 else d.screen.width);
    } else if kind == ERASE_ALL {
      RowPartErased(d, 0, d.screen.width);
    }
    hide Display.Erase, Sized;
  }

  /** A fill that stays in the cursor row. */
  lemma RowPartErased(d: Display, col: int, len: int)
    requires Sane(d) && 0 <= col < d.screen.width && 1 <= len <= d.screen.width - col
    ensures var e := d.Erase(col, d.y + d.Margin(), len);
            && e == d.(screen := d.screen.(rows := e.screen.rows)) && |e.screen.rows| == |d.screen.rows| && e.screen.Shaped()
            && forall r, c | InGrid(d, r, c) :: e.screen.rows[r][c] ==
                 if r == CursorRow(d) && col <= c < col + len then d.Blank() else d.screen.rows[r][c]
  {
    var row, width := CursorRow(d), d.screen.width;
    var e := d.Erase(col, d.y + d.Margin(), len);
    assert Dword(len) == len;
    OperationsKeepShape(d.screen, 0, col, row, len, 0, 0, 0, d.Blank());
    if row < |d.screen.rows| {
      forall r, c | InGrid(d, r, c)
        ensures e.screen.rows[r][c] == if r == row && col <= c < col + len then d.Blank() else d.screen.rows[r][c]
      {
        SpanInRow(width, row, col, len, r, c);
        assert e.screen.rows[r] == FillRow(d.screen.rows[r], width, row * width + col, len, d.Blank(), r);
        hide InRange, Sane;
      }
    }
  }

  lemma SpanInRow(width: nat, row: int, col: int, len: nat, r: int, c: int)
    requires 0 <= c < width && 0 <= col && col + len <= width && len >= 1
    ensures InRange(width, row * width + col, len, r, c) <==> r == row && col <= c < col + len
  {
    IndexOrder(width, row, col, r, c);
    IndexOrder(width, row, col + len - 1, r, c);
    IndexOrder(width, r, c, row, col + len - 1);
  }

  ghost predicate LineTouched(d: Display, kind: int, r: int, c: int) {
    TouchedIn(Marked(d).EraseLine(kind), r, c)
  }

  lemma LineTouches(d: Display, kind: int, r: int, c: int)
    requires Sane(d) && InGrid(d, r, c)
    ensures LineTouched(d, kind, r, c) <==> r == CursorRow(d) && InLinePart(d, kind, c)
  {
    var m := Marked(d);
    assert Sane(m) && InGrid(m, r, c);
    assert d.Blank() != MARK && m.screen.rows[r][c] == MARK;
    EraseLineErases(m, kind);
    hide Display.EraseLine, Sane;
  }

  ghost predicate LineSplits(d: Display) {
    forall r, c | InGrid(d, r, c) ::
      && !(LineTouched(d, ERASE_BEGINNING_TO_CURSOR, r, c) && LineTouched(d, ERASE_CURSOR_TO_END, r, c))
      && (LineTouched(d, ERASE_ALL, r, c) <==>
          LineTouched(d, ERASE_BEGINNING_TO_CURSOR, r, c) || LineTouched(d, ERASE_CURSOR_TO_END, r, c))
  }

  /** The partial line erases share the cursor cell, so they split the line exactly when there is none:
      with a wrap pending, or in origin mode with the row below the buffer. */
  lemma LineErasesSplitExactly(d: Display)
    requires Sane(d)
    ensures LineSplits(d) <==> d.x == d.w || CursorRow(d) >= |d.screen.rows|
  {
    forall r, c | InGrid(d, r, c)
      ensures forall kind :: LineTouched(d, kind, r, c) <==> r == CursorRow(d) && InLinePart(d, kind, c)
    {
      forall kind {
        LineTouches(d, kind, r, c);
      }
    }
    if d.x < d.w && CursorRow(d) < |d.screen.rows| {
      assert InGrid(d, CursorRow(d), d.x);
    }
    hide LineTouched;
  }

  // ----- over bytes -----

  /** ESC [ 0 J erases from the cursor on, 1 J up to it, 2 J all of the window, and K does so in its row;
      other parameters erase nothing. */
  lemma EraseSequenceErases(t: Term, marked: bool, args: seq<Argument>)
    requires Effects.Idle(t) && args != []
    ensures var k, u := args[0].Value(), t.Run(Sequence(marked, args, 'J' as int));
            && Effects.EndsWith(t, u, u.d)
            && (k == 0 ==> DisplayErased(t.d, u.d, ERASE_CURSOR_TO_END))
            && (k == 1 ==> DisplayErased(t.d, u.d, ERASE_BEGINNING_TO_CURSOR))
            && (k == 2 ==> DisplayErased(t.d, u.d, ERASE_ALL))
            && (k < 0 || k > 2 ==> u.d == t.d)
    ensures var k, u := args[0].Value(), t.Run(Sequence(marked, args, 'K' as int));
            && Effects.EndsWith(t, u, u.d)
            && (k == 0 ==> LineErased(t.d, u.d, ERASE_CURSOR_TO_END))
            && (k == 1 ==> LineErased(t.d, u.d, ERASE_BEGINNING_TO_CURSOR))
            && (k == 2 ==> LineErased(t.d, u.d, ERASE_ALL))
            && (k < 0 || k > 2 ==> u.d == t.d)
  {
    var k := args[0].Value();
    assert Sane(t.d) && IsCsiFunction('J' as int) && IsCsiFunction('K' as int);
    assert k < 0 || k > 2 ==> t.d.EraseDisplay(k) == t.d && t.d.EraseLine(k) == t.d;
    hide *;
    var u := Effects.FunctionBegins(t, marked, args, 'J' as int);
    EraseStep(u);
    Effects.FunctionEnds(t, u, u.CsiFunction('J' as int), marked, args, t.d.EraseDisplay(k));
    EraseDisplayErases(t.d, k);
    u := Effects.FunctionBegins(t, marked, args, 'K' as int);
    EraseStep(u);
    Effects.FunctionEnds(t, u, u.CsiFunction('K' as int), marked, args, t.d.EraseLine(k));
    EraseLineErases(t.d, k);
    EndsWithItself(t, t.Run(Sequence(marked, args, 'J' as int)), t.d.EraseDisplay(k));
    EndsWithItself(t, t.Run(Sequence(marked, args, 'K' as int)), t.d.EraseLine(k));
  }

  lemma EraseStep(u: Term)
    ensures u.CsiFunction('J' as int) == u.(d := u.d.EraseDisplay(u.params[0]))
    ensures u.CsiFunction('K' as int) == u.(d := u.d.EraseLine(u.params[0]))
  {
    hide Display.EraseDisplay, Display.EraseLine;
  }

  lemma EndsWithItself(t: Term, u: Term, d: Display)
    requires Effects.EndsWith(t, u, d)
    ensures u.d == d
  {
  }
}
