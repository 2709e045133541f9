/** The screen half of the emulator's state and the functions that specify what its
    cursor, margin, scrolling, erasing and printing methods do to it. */
module Displays {
  import opened Console

  const MAX_SHORT := 0x7FFF

  /** A C conversion to SHORT. */
  function Short(n: int): (r: int)
    ensures -0x8000 <= r < 0x8000
    ensures -0x8000 <= n < 0x8000 ==> r == n
  {
    (n + 0x8000) % 0x1_0000 - 0x8000
  }

  function Min(a: int, b: int): int {
    if a < b then a else b
  }

  const SPACE := 0x20
  const DEFAULT_ATTRIBUTE: Attribute := 7

  const ERASE_CURSOR_TO_END := 0
  const ERASE_BEGINNING_TO_CURSOR := 1
  const ERASE_ALL := 2

  /** `x`, `y` is the tracked cursor, relative to the window (to the top margin in origin mode);
      `x == w` is the pending wrap after a character in the last column. */
  datatype Display = Display(
    screen: Screen, w: int, h: int, x: int, y: int, savedX: int, savedY: int,
    top: int, bottom: int, attr: Attribute, origin: bool, wrap: bool)
  {
    /** The first row of the window, which sits at the bottom of the buffer. */
    function WindowTop(): int {
      |screen.rows| - h
    }

    function Margin(): int {
      if origin then top else 0
    }

    function Blank(): Cell {
      Cell(SPACE, attr)
    }

    function SetCursor(): Display {
      this.(screen := screen.MoveTo(x, y + WindowTop() + Margin()))
    }

    function At(newX: int, newY: int): Display {
      this.(x := newX, y := newY).SetCursor()
    }

    function Scroll(n: int, windowOnly: bool): Display {
      var lines := Short(n);
      if lines == 0 then this
      else if lines > 0 then
        if windowOnly || top > 0 then
          Move(WindowTop() + top + lines, WindowTop() + bottom, WindowTop() + top)
        else
          Move(lines, WindowTop() + bottom, 0)
      else if windowOnly then
        Move(WindowTop() + top, WindowTop() + bottom + 1 + lines + lines, WindowTop() + top - lines)
      else
        Move(0, |screen.rows| - 1 + lines, -lines)
    }

    function Move(from: int, to: int, dest: int): Display {
      this.(screen := screen.MoveRows(from, to, dest, Blank()))
    }

    function Linefeed(newLine: bool): Display {
      var d := if newLine then this.(x := 0) else this;
      var moved :=
        if origin || top <= y <= bottom then
          if y >= bottom - top then d.Scroll(1, false).(y := bottom) else d.(y := Short(y + 1))
        else if y < bottom then d.(y := Short(y + 1))
        else d;
      moved.SetCursor()
    }

    function ReverseLinefeed(): Display {
      (if y == 0 then Scroll(-1, true) else this.(y := Short(y - 1))).SetCursor()
    }

    function Backspace(): Display {
      if x > 0 then (if x < w then At(Short(x - 1), y) else At(Short(w - 1), y)) else this
    }

    function CursorUp(n: int): Display {
      At(x, Short(y - Min(y, n)))
    }

    function CursorDown(n: int): Display {
      At(x, Short(y + Min((if origin then bottom else h - 1) - y, n)))
    }

    function CursorForward(n: int): Display {
      At(Short(x + Min(w - x - 1, n)), y)
    }

    function CursorBack(n: int): Display {
      At(Short(x - Min(x, n)), y)
    }

    function SaveCursor(): Display {
      this.(savedX := x, savedY := y)
    }

    function RestoreCursor(): Display {
      At(savedX, savedY)
    }

    function SetAttribute(a: Attribute): Display {
      this.(attr := a, screen := screen.SetAttribute(a))
    }

    function Reset(): Display {
      this.(x := 0, y := 0, savedX := 0, savedY := 0, top := 0, bottom := Short(h - 1), origin := false, wrap := true)
      .SetAttribute(DEFAULT_ATTRIBUTE).EraseDisplay(ERASE_ALL).SetCursor()
    }

    /** Fill from a window-relative start; `len` goes through a DWORD. */
    function Erase(col: int, row: int, len: int): Display {
      if Dword(len) > 0 then this.(screen := screen.Fill(col, WindowTop() + row, Dword(len), Blank())) else this
    }

    function EraseLine(kind: int): Display {
      var row := y + Margin();
      if kind == ERASE_CURSOR_TO_END then
        if x < w then Erase(x, row, screen.width - x) else this
      else if kind == ERASE_BEGINNING_TO_CURSOR then
        Erase(0, row, if x < w then x + 1 else screen.width)
      else if kind == ERASE_ALL then
        Erase(0, row, screen.width)
      else this
    }

    function EraseDisplay(kind: int): Display {
      if kind == ERASE_CURSOR_TO_END then
        if x < w then Erase(x, y + Margin(), (h - y - Margin()) * screen.width - x)
        else if y < h - 1 then Erase(0, y + 1, (h - y - Margin() - 1) * screen.width)
        else this
      else if kind == ERASE_BEGINNING_TO_CURSOR then
        Erase(0, 0, if x < w then (y + Margin()) * screen.width + x else (y + Margin() + 1) * screen.width)
      else if kind == ERASE_ALL then
        Erase(0, 0, screen.width * h)
      else this
    }

    /** Where one character goes: first settle a pending wrap, then write and advance. */
    function Emit(ch: int): Display {
      Settled().WriteChars([ch])
    }

    function Settled(): Display {
      if x < w then this else if wrap then Linefeed(true) else At(w - 1, y)
    }

    function WriteChars(s: seq<int>): Display {
      this.(screen := screen.Write(s), x := Short(x + |s|))
    }
  }

  /** The write-immediately terminal: every character goes to the screen on its own. */
  function EmitAll(d: Display, s: seq<int>): Display
    decreases |s|
  {
    if s == [] then d else EmitAll(d.Emit(s[0]), s[1..])
  }

  lemma {:induction false} EmitAllConcat(d: Display, a: seq<int>, b: seq<int>)
    ensures EmitAll(d, a + b) == EmitAll(EmitAll(d, a), b)
    decreases |a|
  {
    if a == [] {
      assert a + b == b;
    } else {
      assert (a + b)[0] == a[0];
      assert (a + b)[1..] == a[1..] + b;
      EmitAllConcat(d.Emit(a[0]), a[1..], b);
    }
  }
}
