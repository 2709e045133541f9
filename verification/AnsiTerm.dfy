/** The emulator as the object it is: fields updated byte by byte, two fixed parameter and output
    buffers, and loops over them. Every method is proved against the function that specifies it. */
module AnsiTerm {
  import opened Bytes
  import opened Console
  import opened Displays
  import opened Terminal
  import opened Invariants
  import Draining
  import Erasing
  import Scrolling

  type Coord = n: int | -0x8000 <= n < 0x8000

  class AnsiTerm {
    const glyphs: Glyphs
    const outputBuffer: array<int>
    const utf8Buffer: array<Byte>
    const parameters: array<int>

    var screen: Screen
    var windowW: Coord
    var windowH: Coord
    var x: Coord
    var y: Coord
    var savedX: Coord
    var savedY: Coord
    var topMargin: Coord
    var bottomMargin: Coord
    var attribute: Attribute
    var originMode: bool
    var autoWrapMode: bool

    var state: State
    var useG1: bool
    var g0Charset: Charset
    var g1Charset: Charset
    var outputCount: nat
    var utf8Count: nat
    var utf8Size: Utf8Size
    var parameterCount: nat
    var parametersStart: bool
    var privateParameters: bool
    var modes: Modes

    // ----- abstraction -----

    ghost function Disp(): Display
      reads this
    {
      Display(screen, windowW, windowH, x, y, savedX, savedY, topMargin, bottomMargin, attribute, originMode, autoWrapMode)
    }

    ghost predicate Shape()
      reads this
    {
      && outputBuffer.Length == OUTPUT_BUFFER_SIZE && utf8Buffer.Length == 3 && parameters.Length == MAX_PARAMETERS
      && outputBuffer != parameters && utf8Buffer as object != outputBuffer && utf8Buffer as object != parameters
      && 1 <= windowW
      && outputCount <= OUTPUT_BUFFER_SIZE && utf8Count <= 3 && parameterCount <= MAX_PARAMETERS
    }

    /** What holds between bytes: the output buffer has room, and so has the UTF-8 buffer when in use. */
    ghost predicate Valid()
      reads this
    {
      Shape() && outputCount < OUTPUT_BUFFER_SIZE && (state.Utf8? ==> 1 <= utf8Count < utf8Size)
    }

    ghost function Pending(): seq<int>
      requires Shape()
      reads this, outputBuffer
    {
      outputBuffer[..outputCount]
    }

    ghost function View(): Term
      requires Shape()
      reads this, outputBuffer, utf8Buffer, parameters
    {
      Term(glyphs, OUTPUT_BUFFER_SIZE, Disp(), state, useG1, g0Charset, g1Charset,
           utf8Buffer[..utf8Count], utf8Size, parameters[..], parameterCount, parametersStart, privateParameters,
           modes, Pending())
    }

    /** The emulator opens on a console whose window is its last `h` rows. On a console of proper size
        this is where the runs that keep every bound start. */
    constructor (glyphs: Glyphs, console: Screen, w: Coord, h: Coord)
      requires 1 <= w
      ensures Valid() && fresh(outputBuffer) && fresh(utf8Buffer) && fresh(parameters)
      ensures View().state == Normal && View().out == [] && View().glyphs == glyphs && View().modes == RESET_MODES
      ensures Disp() == Display(Opened(console, h), w, h, 0, 0, 0, 0, 0, 0, DEFAULT_ATTRIBUTE, false, true).Reset()
      ensures Sized(Display(console, w, h, 0, 0, 0, 0, 0, 0, DEFAULT_ATTRIBUTE, false, true)) ==>
                SaneTerm(View()) && LiveParameters(View())
    {
      this.glyphs := glyphs;
      outputBuffer := new int[OUTPUT_BUFFER_SIZE];
      utf8Buffer := new Byte[3];
      parameters := new int[MAX_PARAMETERS];
      screen := Opened(console, h);
      windowW, windowH := w, h;
      outputCount, utf8Count, parameterCount := 0, 0, 0;
      new;
      ResetTerm();
      ghost var d := Display(console, w, h, 0, 0, 0, 0, 0, 0, DEFAULT_ATTRIBUTE, false, true);
      assert Disp() == d.(screen := Opened(console, h)).Reset();
      hide Sized, SaneTerm, Display.Reset, Opened;
      if Sized(d) {
        OpenedIsSane(View(), d, console);
      }
    }

    // ----- cursor, scrolling, erasing -----

    method SetCursorPosition()
      modifies `screen
      ensures Disp() == old(Disp()).SetCursor()
    {
      screen := screen.MoveTo(x, y + (|screen.rows| - windowH) + (if originMode then topMargin else 0));
    }

    method HomeCursor()
      modifies `screen, `x, `y
      ensures Disp() == old(Disp()).At(0, 0) && x == 0 && y == 0
    {
      x := 0;
      y := 0;
      SetCursorPosition();
    }

    /** In the bounds, one line moves exactly the rows of its region, and blanks the row left free. */
    method ScrollDisplay(n: int, windowOnly: bool)
      modifies `screen
      ensures Disp() == old(Disp()).Scroll(n, windowOnly)
      ensures Sane(old(Disp())) ==> Scrolling.ScrolledByOne(old(Disp()), Disp(), n, windowOnly)
    {
      ghost var before := Disp();
      MoveRegion(n, windowOnly);
      hide *;
      if Sane(before) {
        Scrolling.ScrollsByOne(before, n, windowOnly);
      }
    }

    method MoveRegion(n: int, windowOnly: bool)
      modifies `screen
      ensures Disp() == old(Disp()).Scroll(n, windowOnly)
    {
      hide Short, Screen.MoveRows;
      var lines := Short(n);
      if lines == 0 {
        return;
      }
      var windowTop := |screen.rows| - windowH;
      var from, to, dest := 0, |screen.rows| - 1, 0;
      if lines > 0 {
        if windowOnly || topMargin > 0 {
          dest := windowTop + topMargin;
          from := windowTop + topMargin + lines;
        } else {
          from := lines;
        }
        to := windowTop + bottomMargin;
      } else {
        if windowOnly {
          dest := windowTop + topMargin - lines;
          from := windowTop + topMargin;
          to := windowTop + bottomMargin + 1 + lines;
        } else {
          dest := dest - lines;
        }
        to := to + lines;
      }
      screen := screen.MoveRows(from, to, dest, Cell(SPACE, attribute));
    }

    /** In the bounds, exactly the part of the cursor row the kind asks for is blank. */
    method EraseLine(kind: int)
      modifies `screen
      ensures Disp() == old(Disp()).EraseLine(kind)
      ensures Sane(old(Disp())) ==> Erasing.LineErased(old(Disp()), Disp(), kind)
    {
      ghost var before := Disp();
      FillLine(kind);
      hide Erasing.LineErased, Display.EraseLine;
      if Sane(before) {
        Erasing.EraseLineErases(before, kind);
      }
    }

    method FillLine(kind: int)
      modifies `screen
      ensures Disp() == old(Disp()).EraseLine(kind)
    {
      var col, length := 0, 0;
      if kind == ERASE_CURSOR_TO_END {
        if x < windowW {
          col := x;
          length := Dword(screen.width - x);
        }
      } else if kind == ERASE_BEGINNING_TO_CURSOR {
        length := Dword(if x < windowW then x + 1 else screen.width);
      } else if kind == ERASE_ALL {
        length := Dword(screen.width);
      } else {
        return;
      }
      if length > 0 {
        var row := |screen.rows| - windowH + (y + (if originMode then topMargin else 0));
        screen := screen.Fill(col, row, length, Cell(SPACE, attribute));
      }
    }

    /** In the bounds, exactly the part of the buffer the kind asks for is blank. */
    method EraseDisplay(kind: int)
      modifies `screen
      ensures Disp() == old(Disp()).EraseDisplay(kind)
      ensures Sane(old(Disp())) ==> Erasing.DisplayErased(old(Disp()), Disp(), kind)
    {
      ghost var before := Disp();
      FillDisplay(kind);
      hide Erasing.DisplayErased, Display.EraseDisplay;
      if Sane(before) {
        Erasing.EraseDisplayErases(before, kind);
      }
    }

    method FillDisplay(kind: int)
      modifies `screen
      ensures Disp() == old(Disp()).EraseDisplay(kind)
    {
      hide Dword, Screen.Fill;
      var margin := if originMode then topMargin else 0;
      var col, row, length := 0, 0, 0;
      if kind == ERASE_CURSOR_TO_END {
        if x < windowW {
          col, row := x, y + margin;
          length := Dword((windowH - y - margin) * screen.width - x);
        } else if y < windowH - 1 {
          row := y + 1;
          length := Dword((windowH - y - margin - 1) * screen.width);
        }
      } else if kind == ERASE_BEGINNING_TO_CURSOR {
        length := Dword(if x < windowW then (y + margin) * screen.width + x else (y + margin + 1) * screen.width);
      } else if kind == ERASE_ALL {
        length := Dword(screen.width * windowH);
      } else {
        return;
      }
      if length > 0 {
        screen := screen.Fill(col, |screen.rows| - windowH + row, length, Cell(SPACE, attribute));
      }
    }

    method UpdateTextAttribute()
      modifies `screen
      ensures Disp() == old(Disp()).(screen := old(screen).SetAttribute(attribute))
    {
      screen := screen.SetAttribute(attribute);
    }

    /** In the bounds, the cursor goes down a row, or the rows above the bottom margin go up. */
    method ProcessLinefeed(newLine: bool)
      modifies `screen, `x, `y
      ensures Disp() == old(Disp()).Linefeed(newLine)
      ensures newLine ==> x == 0
      ensures Sane(old(Disp())) ==>
                Scrolling.FedLine(if newLine then old(Disp()).(x := 0) else old(Disp()), Disp())
    {
      ghost var before := Disp();
      Index(newLine);
      hide *;
      if Sane(before) {
        Scrolling.LinefeedMoves(before, newLine);
      }
    }

    method Index(newLine: bool)
      modifies `screen, `x, `y
      ensures Disp() == old(Disp()).Linefeed(newLine)
      ensures newLine ==> x == 0
    {
      if newLine {
        x := 0;
      }
      if originMode || topMargin <= y <= bottomMargin {
        if y >= bottomMargin - topMargin {
          ScrollDisplay(1, false);
          y := bottomMargin;
        } else {
          y := Short(y + 1);
        }
      } else if y < bottomMargin {
        y := Short(y + 1);
      }
      SetCursorPosition();
    }

    /** In the bounds, the cursor goes up a row, or from row 0 the rows between the margins go down. */
    method ProcessReverseLinefeed()
      modifies `screen, `y
      ensures Disp() == old(Disp()).ReverseLinefeed()
      ensures Sane(old(Disp())) ==> Scrolling.ReversedLine(old(Disp()), Disp())
    {
      ghost var before := Disp();
      ReverseIndex();
      hide *;
      if Sane(before) {
        Scrolling.ReverseLinefeedMoves(before);
      }
    }

    method ReverseIndex()
      modifies `screen, `y
      ensures Disp() == old(Disp()).ReverseLinefeed()
    {
      if y == 0 {
        ScrollDisplay(-1, true);
      } else {
        y := Short(y - 1);
      }
      SetCursorPosition();
    }

    method ProcessBackspace()
      modifies `screen, `x
      ensures Disp() == old(Disp()).Backspace()
    {
      if x > 0 {
        if x < windowW {
          x := Short(x - 1);
        } else {
          x := Short(windowW - 1);
        }
        SetCursorPosition();
      }
    }

    method ProcessReturn()
      modifies `screen, `x
      ensures Disp() == old(Disp()).At(0, old(y))
    {
      x := 0;
      SetCursorPosition();
    }

    // ----- output -----

    /** Drain the buffer in runs up to the right edge: the result is that of writing each character at once. */
    method OutputText() returns (written: nat)
      requires Shape()
      modifies `screen, `x, `y, `outputCount
      ensures Disp() == EmitAll(old(Disp()), old(Pending()))
      ensures outputCount == 0 && written == old(outputCount)
    {
      hide EmitAll;
      written := 0;
      ghost var before, all := Disp(), Pending();
      var left: nat := outputCount;
      assert all[0..] == all;
      while left > 0
        invariant written + left == outputCount == old(outputCount)
        invariant Pending() == all && windowW == before.w
        invariant EmitAll(Disp(), all[written..]) == EmitAll(before, all)
      {
        hide EmitAll;
        var n := OutputRun(written, left);
        assert all[written..][n..] == all[written + n..];
        written := written + n;
        left := left - n;
      }
      assert all[written..] == [];
      DrainedIsDone(Disp());
      outputCount := 0;
    }

    /** One turn of the drain loop: settle a pending wrap, then write what fits on the line; with
        autowrap off, a full line takes all that is left at once. */
    method OutputRun(current: nat, left: nat) returns (n: nat)
      requires Shape() && left > 0 && current + left == outputCount
      modifies `screen, `x, `y
      ensures 1 <= n <= left
      ensures EmitAll(Disp(), old(Pending())[current..][n..]) == EmitAll(old(Disp()), old(Pending())[current..])
    {
      ghost var rest := Pending()[current..];
      if x >= windowW {
        if autoWrapMode {
          Draining.WrapComesFirst(Disp(), rest);
          ProcessLinefeed(true);
        } else {
          WriteOverLastColumn(rest);
          DrainedIsDone(Disp());
          assert rest[left..] == [];
          return left;
        }
      }
      hide EmitAll, Display.Linefeed;
      n := if left < windowW - x then left else windowW - x;
      RunOfBuffer(outputBuffer[..], outputCount, current, n);
      WriteRun(current, n, rest);
    }

    lemma RunOfBuffer(buffer: seq<int>, count: nat, from: nat, n: nat)
      requires from + n <= count <= |buffer|
      ensures buffer[..count][from..][..n] == buffer[from..from + n]
      ensures buffer[..count][from..][n..] == buffer[..count][from + n..]
    {
    }

    lemma DrainedIsDone(d: Display)
      ensures EmitAll(d, []) == d
    {
    }

    /** One WriteConsoleW call for a run that fits on the line. */
    method WriteRun(from: nat, count: nat, ghost rest: seq<int>)
      requires from + count <= outputBuffer.Length && x + count <= windowW
      requires count <= |rest| && rest[..count] == outputBuffer[..][from..from + count]
      modifies `screen, `x
      ensures EmitAll(Disp(), rest[count..]) == EmitAll(old(Disp()), rest)
    {
      hide EmitAll, Screen.Write, Short;
      Draining.RunIsEmitted(Disp(), rest, count);
      assert outputBuffer[from..from + count] == rest[..count];
      screen := screen.Write(outputBuffer[from..from + count]);
      x := Short(x + count);
    }

    /** Autowrap off and the line full: of the characters left only the last one ends up on the screen. */
    method WriteOverLastColumn(ghost rest: seq<int>)
      requires Shape() && outputCount > 0 && x >= windowW && !autoWrapMode
      requires rest != [] && rest[|rest| - 1] == outputBuffer[outputCount - 1]
      modifies `screen, `x
      ensures Disp() == EmitAll(old(Disp()), rest)
    {
      Draining.OnlyTheLastStays(Disp(), rest);
      hide EmitAll;
      x := windowW - 1;
      SetCursorPosition();
      screen := screen.Write([outputBuffer[outputCount - 1]]);
      x := Short(x + 1);
    }

    method AddOutputData(ch: int)
      requires Shape() && outputCount < OUTPUT_BUFFER_SIZE
      modifies `screen, `x, `y, `outputCount, outputBuffer
      ensures Shape() && outputCount < OUTPUT_BUFFER_SIZE
      ensures View() == old(View()).Add(ch)
    {
      hide EmitAll;
      outputBuffer[outputCount] := ch;
      outputCount := outputCount + 1;
      assert Pending() == old(Pending()) + [ch];
      if outputCount >= OUTPUT_BUFFER_SIZE {
        var _ := OutputText();
      }
    }

    method AddAllOutputData(s: seq<int>)
      requires Shape() && outputCount < OUTPUT_BUFFER_SIZE
      modifies `screen, `x, `y, `outputCount, outputBuffer
      ensures Shape() && outputCount < OUTPUT_BUFFER_SIZE
      ensures View() == old(View()).AddAll(s)
    {
      var i := 0;
      while i < |s|
        invariant 0 <= i <= |s|
        invariant Shape() && outputCount < OUTPUT_BUFFER_SIZE
        invariant View().AddAll(s[i..]) == old(View()).AddAll(s)
      {
        assert s[i..][0] == s[i] && s[i..][1..] == s[i + 1..];
        AddOutputData(s[i]);
        i := i + 1;
      }
    }

    method ProcessTab()
      requires Shape() && outputCount < OUTPUT_BUFFER_SIZE
      modifies `screen, `x, `y, `outputCount, outputBuffer
      ensures Shape() && outputCount < OUTPUT_BUFFER_SIZE
      ensures View() == old(View()).Tab()
    {
      hide Term.AddAll, Display.Linefeed, Scrolling.FedLine, Sane, TabStop;
      if x >= windowW {
        if autoWrapMode {
          ProcessLinefeed(true);
        } else {
          return;
        }
      }
      FillToTabStop();
    }

    method FillToTabStop()
      requires Shape() && outputCount < OUTPUT_BUFFER_SIZE
      modifies `screen, `x, `y, `outputCount, outputBuffer
      ensures Shape() && outputCount < OUTPUT_BUFFER_SIZE
      ensures View() == old(View()).AddAll(Spaces(TabStop(old(x), windowW) - old(x)))
    {
      hide Term.AddAll;
      var newX := (x + 8) / 8 * 8;
      if newX >= windowW {
        newX := windowW - 1;
      }
      AddAllOutputData(Spaces(newX - x));
    }

    lemma PrintedListGrows(ps: seq<int>, k: nat)
      requires k < |ps|
      ensures PrintedList(ps[..k + 1]) == PrintedList(ps[..k]) + (if k > 0 then [';' as int] else []) + Printed(ps[k])
    {
      assert ps[..k + 1][..k] == ps[..k];
      assert k == 0 ==> ps[..k] == [];
    }

    /** Show an unrecognised control sequence. */
    method DisplayCSI(ch: Byte)
      requires Shape() && outputCount < OUTPUT_BUFFER_SIZE
      modifies `screen, `x, `y, `outputCount, outputBuffer
      ensures Shape() && outputCount < OUTPUT_BUFFER_SIZE
      ensures View() == old(View()).DisplayCsi(ch)
    {
      ghost var t := View();
      AddAllOutputData(['^' as int, '[' as int, '[' as int]);
      ghost var u := View();
      assert u.params == t.params && u.count == t.count;
      ShowParameters();
      AddAllOutputData([SignedChar(ch)]);
      CsiTextInPieces(t, u, ch);
    }

    lemma CsiTextInPieces(t: Term, u: Term, ch: Byte)
      requires u == t.AddAll(['^' as int, '[' as int, '[' as int])
      ensures u.AddAll(PrintedList(t.FirstParams())).AddAll([SignedChar(ch)]) == t.DisplayCsi(ch)
    {
      var head, list, tail := ['^' as int, '[' as int, '[' as int], PrintedList(t.FirstParams()), [SignedChar(ch)];
      AddAllConcat(t, head, list);
      AddAllConcat(t, head + list, tail);
    }

    method ShowParameters()
      requires Shape() && outputCount < OUTPUT_BUFFER_SIZE
      modifies `screen, `x, `y, `outputCount, outputBuffer
      ensures Shape() && outputCount < OUTPUT_BUFFER_SIZE
      ensures View() == old(View()).AddAll(PrintedList(parameters[..parameterCount]))
    {
      ghost var t, ps := View(), parameters[..parameterCount];
      var idx := 0;
      assert ps[..0] == [];
      while idx < parameterCount
        invariant 0 <= idx <= parameterCount == |ps| && Shape() && outputCount < OUTPUT_BUFFER_SIZE
        invariant View() == t.AddAll(PrintedList(ps[..idx]))
      {
        AppendPrinted(t, ps, idx);
        hide Term.AddAll, Term.Add, Printed, PrintedList;
        var _ := ShowParameter(idx);
        idx := idx + 1;
      }
      assert ps[..idx] == ps;
    }

    lemma AppendPrinted(t: Term, ps: seq<int>, k: nat)
      requires k < |ps|
      ensures t.AddAll(PrintedList(ps[..k])).AddAll((if k > 0 then [';' as int] else []) + Printed(ps[k]))
           == t.AddAll(PrintedList(ps[..k + 1]))
    {
      hide *;
      var before, sep := PrintedList(ps[..k]), if k > 0 then [';' as int] else [];
      PrintedListGrows(ps, k);
      assert before + sep + Printed(ps[k]) == before + (sep + Printed(ps[k]));
      AddAllConcat(t, before, sep + Printed(ps[k]));
    }

    method ShowParameter(idx: nat) returns (piece: seq<int>)
      requires Shape() && outputCount < OUTPUT_BUFFER_SIZE && idx < parameterCount
      modifies `screen, `x, `y, `outputCount, outputBuffer
      ensures Shape() && outputCount < OUTPUT_BUFFER_SIZE
      ensures piece == (if idx > 0 then [';' as int] else []) + Printed(parameters[idx])
      ensures View() == old(View()).AddAll(piece)
    {
      piece := (if idx > 0 then [';' as int] else []) + Printed(parameters[idx]);
      hide Printed, Term.AddAll;
      AddAllOutputData(piece);
    }

    // ----- control sequence functions -----

    method DefaultFirstParameter()
      requires Shape()
      modifies parameters
      ensures View() == old(View()).DefaultOne()
    {
      if parameters[0] == 0 {
        parameters[0] := parameters[0] + 1;
      }
    }

    method ProcessCUU()
      requires Shape()
      modifies `screen, `y, parameters
      ensures View() == old(View()).DefaultOne().Move('A' as int)
    {
      DefaultFirstParameter();
      y := Short(y - Min(y, parameters[0]));
      SetCursorPosition();
    }

    method ProcessCUD()
      requires Shape()
      modifies `screen, `y, parameters
      ensures View() == old(View()).DefaultOne().Move('B' as int)
    {
      DefaultFirstParameter();
      y := Short(y + Min((if originMode then bottomMargin else windowH - 1) - y, parameters[0]));
      SetCursorPosition();
    }

    method ProcessCUF()
      requires Shape()
      modifies `screen, `x, parameters
      ensures View() == old(View()).DefaultOne().Move('C' as int)
    {
      DefaultFirstParameter();
      x := Short(x + Min(windowW - x - 1, parameters[0]));
      SetCursorPosition();
    }

    method ProcessCUB()
      requires Shape()
      modifies `screen, `x, parameters
      ensures View() == old(View()).DefaultOne().Move('D' as int)
    {
      DefaultFirstParameter();
      x := Short(x - Min(x, parameters[0]));
      SetCursorPosition();
    }

    method ClampPosition()
      requires Shape() && parameterCount >= 1
      modifies parameters
      ensures parameters[..] == old(View()).PositionParams()
    {
      if parameters[0] > 0 {
        parameters[0] := parameters[0] - 1;
      }
      if parameterCount < 2 {
        parameters[1] := 0;
      } else if parameters[1] > 0 {
        parameters[1] := parameters[1] - 1;
      }
      if originMode {
        if parameters[0] >= bottomMargin - topMargin + 1 {
          parameters[0] := bottomMargin - topMargin;
        }
      } else if parameters[0] >= windowH {
        parameters[0] := windowH - 1;
      }
      if parameters[1] >= windowW {
        parameters[1] := windowW - 1;
      }
    }

    /** The precondition is the source's own assertion. */
    method ProcessHVP()
      requires Shape() && parameterCount >= 1
      modifies `screen, `x, `y, parameters
      ensures View() == old(View()).Position()
    {
      ClampPosition();
      y := Short(parameters[0]);
      x := Short(parameters[1]);
      SetCursorPosition();
      hide Term.PositionParams;
      assert parameters[..][0] == parameters[0] && parameters[..][1] == parameters[1];
    }

    method ReadMargins()
      requires Shape() && parameterCount >= 1
      modifies parameters
      ensures parameters[..] == old(View()).MarginParams()
    {
      if parameters[0] > 0 {
        parameters[0] := parameters[0] - 1;
      }
      if parameterCount < 2 {
        parameters[1] := windowH - 1;
      } else if parameters[1] > 0 {
        parameters[1] := parameters[1] - 1;
      } else {
        parameters[1] := windowH - 1;
      }
    }

    /** The precondition is the source's own assertion. */
    method ProcessDECSTBM()
      requires Shape() && parameterCount >= 1
      modifies `screen, `x, `y, `topMargin, `bottomMargin, parameters
      ensures View() == old(View()).SetMargins()
    {
      ReadMargins();
      hide Term.MarginParams, Display.At;
      assert parameters[..][0] == parameters[0] && parameters[..][1] == parameters[1];
      SetMarginsTo(parameters[0], parameters[1]);
    }

    method SetMarginsTo(top: int, bottom: int)
      requires Shape()
      modifies `screen, `x, `y, `topMargin, `bottomMargin
      ensures View() == old(View()).WithMargins(top, bottom)
    {
      if top >= windowH || bottom >= windowH || top >= bottom {
        return;
      }
      hide Display.At;
      MoveMargins(top, bottom);
    }

    method MoveMargins(top: int, bottom: int)
      modifies `screen, `x, `y, `topMargin, `bottomMargin
      ensures Disp() == old(Disp()).(top := Short(top), bottom := Short(bottom)).At(0, 0)
    {
      hide Display.At, Short;
      topMargin := Short(top);
      bottomMargin := Short(bottom);
      HomeCursor();
    }

    method ProcessSGR()
      requires Shape()
      modifies `screen, `attribute
      ensures View() == old(View()).Show(old(Disp()).SetAttribute(Renditions(old(attribute), parameters[..parameterCount])))
    {
      var index := 0;
      while index < parameterCount
        invariant 0 <= index <= parameterCount
        invariant screen == old(screen) && attribute == Renditions(old(attribute), parameters[..index])
      {
        assert parameters[..index + 1][..index] == parameters[..index];
        attribute := Rendition(attribute, parameters[index]);
        index := index + 1;
      }
      assert parameters[..index] == parameters[..parameterCount];
      hide Renditions;
      UpdateTextAttribute();
    }

    /** The loop runs once per parameter but looks at parameter 0 each time. The precondition is
        the source's own assertion that the mode is known. */
    method ProcessSM()
      requires Shape() && parameterCount >= 1
      requires if privateParameters then IsSwitch(parameters[0]) else parameters[0] == 20
      modifies `screen, `x, `y, `savedX, `savedY, `originMode, `autoWrapMode, `modes
      ensures View() == old(View()).SetMode()
    {
      ghost var t := View();
      var index := 0;
      while index < parameterCount
        invariant 0 <= index <= parameterCount
        invariant View() == if index == 0 then t else t.SetMode()
      {
        SetModeTwice(t);
        SetOneMode();
        index := index + 1;
      }
    }

    lemma SetModeTwice(t: Term)
      ensures t.SetMode().SetMode() == t.SetMode()
    {
      hide SwitchMode;
      var d := t.d.(origin := true, savedX := 0, savedY := 0).At(0, 0);
      assert d.(origin := true, savedX := 0, savedY := 0).At(0, 0) == d;
      SwitchTwice(t.modes, t.params[0]);
      hide Display.At;
    }

    lemma SwitchTwice(m: Modes, p: int)
      ensures SwitchMode(SwitchMode(m, p, true), p, true) == SwitchMode(m, p, true)
    {
      SwitchedIsOn(m, p);
      OnStaysOn(SwitchMode(m, p, true), p);
      hide *;
    }

    static predicate IsOn(m: Modes, p: int) {
      && (p == 1 ==> m.cursorKey) && (p == 2 ==> m.ansi) && (p == 3 ==> m.column) && (p == 4 ==> m.scrolling)
      && (p == 5 ==> m.reverse) && (p == 8 ==> m.autoRepeat) && (p == 9 ==> m.interlace) && (p == 25 ==> m.showCursor)
    }

    lemma SwitchedIsOn(m: Modes, p: int)
      ensures IsOn(SwitchMode(m, p, true), p)
    {
    }

    lemma OnStaysOn(m: Modes, p: int)
      requires IsOn(m, p)
      ensures SwitchMode(m, p, true) == m
    {
    }

    method SetOneMode()
      requires Shape()
      requires if privateParameters then IsSwitch(parameters[0]) else parameters[0] == 20
      modifies `screen, `x, `y, `savedX, `savedY, `originMode, `autoWrapMode, `modes
      ensures View() == old(View()).SetMode()
    {
      hide SwitchMode, Display.At;
      var p := parameters[0];
      if privateParameters {
        if p == 6 {
          OriginOn();
        } else if p == 7 {
          autoWrapMode := true;
        } else {
          modes := SwitchMode(modes, p, true);
        }
      } else {
        modes := modes.(newLine := true);
      }
    }

    method OriginOn()
      modifies `screen, `x, `y, `savedX, `savedY, `originMode
      ensures Disp() == old(Disp()).(origin := true, savedX := 0, savedY := 0).At(0, 0)
    {
      originMode := true;
      x := 0;
      y := 0;
      savedX := x;
      savedY := y;
      SetCursorPosition();
    }

    method ProcessRM()
      requires Shape()
      modifies `screen, `x, `y, `originMode, `autoWrapMode, `modes
      ensures View() == old(View()).ResetFirstModes(parameterCount)
    {
      ghost var t := View();
      var index := 0;
      while index < parameterCount
        invariant 0 <= index <= parameterCount
        invariant View() == t.ResetFirstModes(index)
      {
        hide Term.ResetMode;
        ResetOneMode(parameters[index]);
        index := index + 1;
      }
    }

    method ResetOneMode(p: int)
      requires Shape()
      modifies `screen, `x, `y, `originMode, `autoWrapMode, `modes
      ensures View() == old(View()).ResetMode(p)
    {
      hide SwitchMode, Display.At;
      if privateParameters {
        if p == 6 {
          OriginOff();
        } else if p == 7 {
          autoWrapMode := false;
        } else {
          modes := SwitchMode(modes, p, false);
        }
      } else if p == 20 {
        modes := modes.(newLine := false);
      }
    }

    method OriginOff()
      modifies `screen, `x, `y, `originMode
      ensures Disp() == old(Disp()).(origin := false).At(0, 0)
    {
      originMode := false;
      HomeCursor();
    }

    method ProcessSCP()
      modifies `savedX, `savedY
      ensures Disp() == old(Disp()).SaveCursor()
    {
      savedX := x;
      savedY := y;
    }

    method ProcessRCP()
      modifies `screen, `x, `y
      ensures Disp() == old(Disp()).RestoreCursor()
    {
      x := savedX;
      y := savedY;
      SetCursorPosition();
    }

    method ResetTerm()
      requires Shape()
      modifies this
      ensures Valid() && View() == old(View()).Reset()
    {
      SelectNormal();
      ClearOutput();
      ghost var t := View();
      ResetDisplay();
      hide Display.Reset;
      assert View() == t.Show(t.d.Reset());
    }

    method SelectNormal()
      requires Shape()
      modifies `state, `useG1, `g0Charset, `g1Charset
      ensures View() == old(View()).(state := Normal, useG1 := false, g0 := Ascii, g1 := SpecialGraphics)
    {
      state := Normal;
      useG1, g0Charset, g1Charset := false, Ascii, SpecialGraphics;
    }

    method ClearOutput()
      requires Shape()
      modifies `outputCount, `modes
      ensures Shape() && outputCount == 0 && View() == old(View()).(out := [], modes := RESET_MODES)
    {
      outputCount := 0;
      modes := RESET_MODES;
      assert Pending() == [];
    }

    method ResetDisplay()
      modifies `screen, `x, `y, `savedX, `savedY, `topMargin, `bottomMargin, `attribute, `originMode, `autoWrapMode
      ensures Disp() == old(Disp()).Reset()
    {
      ResetFields();
      hide Display.EraseDisplay, Display.SetCursor;
      EraseDisplay(ERASE_ALL);
      SetCursorPosition();
    }

    method ResetFields()
      modifies `screen, `x, `y, `savedX, `savedY, `topMargin, `bottomMargin, `attribute, `originMode, `autoWrapMode
      ensures Disp() == old(Disp()).(x := 0, y := 0, savedX := 0, savedY := 0, top := 0, bottom := Short(windowH - 1),
                                     origin := false, wrap := true).SetAttribute(DEFAULT_ATTRIBUTE)
    {
      x, y := 0, 0;
      savedX, savedY := x, y;
      topMargin, bottomMargin := 0, Short(windowH - 1);
      originMode, autoWrapMode := false, true;
      attribute := DEFAULT_ATTRIBUTE;
      UpdateTextAttribute();
    }

    /** The console was resized: take its new contents and sizes, and start over. */
    method WindowSizeChanged(newScreen: Screen, w: Coord, h: Coord)
      requires Shape() && 1 <= w
      modifies this
      ensures Valid() && View() == old(View()).Resize(newScreen, w, h)
    {
      hide Term.Reset;
      screen := newScreen;
      windowW, windowH := w, h;
      ResetTerm();
    }

    // ----- one byte, by state -----

    method ControlByte(b: Byte)
      requires Valid() && IsControl(b)
      modifies `screen, `x, `y, `outputCount, `useG1, `state, outputBuffer
      ensures Valid() && View() == old(View()).Control(b)
    {
      hide Term.Add, Term.Tab, Display.Backspace, Display.Linefeed, Display.At;
      if b == 0x08 {
        ProcessBackspace();
      } else if b == 0x09 {
        ProcessTab();
      } else if 0x0A <= b <= 0x0C {
        ProcessLinefeed(modes.newLine);
      } else if b == 0x0D {
        ProcessReturn();
      } else if b == 0x0E {
        useG1 := true;
      } else if b == 0x0F {
        useG1 := false;
      } else if b == 0x1B {
        state := Escape;
      } else if !IsIgnored(b) {
        AddOutputData(glyphs.oem(b));
      }
    }

    method TextByte(b: Byte)
      requires Valid() && state.Normal?
      modifies `screen, `x, `y, `outputCount, `utf8Count, `utf8Size, `state, outputBuffer, utf8Buffer
      ensures Valid() && View() == old(View()).TextByte(b)
    {
      if b >= 0x80 {
        LeadByte(b);
      } else if (if useG1 then g1Charset else g0Charset).SpecialGraphics? && 0x5F <= b <= 0x7E {
        AddOutputData(glyphs.graphics(b));
      } else {
        AddOutputData(b);
      }
    }

    method LeadByte(b: Byte)
      requires Valid() && state.Normal?
      modifies `screen, `x, `y, `outputCount, `utf8Count, `utf8Size, `state, outputBuffer, utf8Buffer
      ensures Valid() && View() == old(View()).LeadByte(b)
    {
      if b / 0x20 == 6 {
        utf8Size := 2;
      } else if b / 0x10 == 0xE {
        utf8Size := 3;
      } else {
        AddOutputData(glyphs.oem(b));
        return;
      }
      utf8Count := 1;
      utf8Buffer[0] := b;
      state := Utf8;
      assert utf8Buffer[..1] == [b];
    }

    method Utf8Byte(b: Byte)
      requires Valid() && state.Utf8?
      modifies `screen, `x, `y, `outputCount, `utf8Count, `state, outputBuffer, utf8Buffer
      ensures Valid() && View() == old(View()).Utf8Byte(b)
    {
      hide Term.Add, Term.AddAll, Term.OemGlyphs, DecodeUtf8;
      if b / 0x40 != 2 {
        BrokenCharacter(b);
      } else {
        CollectUtf8(b);
        if utf8Count == utf8Size {
          AddOutputData(DecodeUtf8(utf8Buffer[..utf8Count]));
          state := Normal;
        }
      }
    }

    method CollectUtf8(b: Byte)
      requires Valid() && state.Utf8?
      modifies `utf8Count, utf8Buffer
      ensures Shape() && outputCount < OUTPUT_BUFFER_SIZE && 1 <= utf8Count <= utf8Size
      ensures View() == old(View()).(utf8 := old(View()).utf8 + [b])
    {
      utf8Buffer[utf8Count] := b;
      utf8Count := utf8Count + 1;
      assert utf8Buffer[..utf8Count] == old(utf8Buffer[..utf8Count]) + [b];
    }

    /** The bytes collected so far and the one that breaks them off, each on its own. */
    method BrokenCharacter(b: Byte)
      requires Valid() && state.Utf8? && b / 0x40 != 2
      modifies `screen, `x, `y, `outputCount, `state, outputBuffer
      ensures Valid() && View() == old(View()).Utf8Byte(b)
    {
      hide Term.AddAll, Term.Add, Term.OemGlyphs;
      OemCharactersAnd(if b >= 0x80 then glyphs.oem(b) else b);
      state := Normal;
    }

    method OemCharactersAnd(last: int)
      requires Shape() && outputCount < OUTPUT_BUFFER_SIZE
      modifies `screen, `x, `y, `outputCount, outputBuffer
      ensures Shape() && outputCount < OUTPUT_BUFFER_SIZE
      ensures View() == old(View()).AddAll(old(View()).OemGlyphs(utf8Buffer[..utf8Count]) + [last])
    {
      hide Term.AddAll, Term.Add, Term.OemGlyphs;
      AddAllTwice(View(), View().OemGlyphs(utf8Buffer[..utf8Count]), last);
      OemCharacters();
      AddOutputData(last);
    }

    method OemCharacters()
      requires Shape() && outputCount < OUTPUT_BUFFER_SIZE
      modifies `screen, `x, `y, `outputCount, outputBuffer
      ensures Shape() && outputCount < OUTPUT_BUFFER_SIZE
      ensures View() == old(View()).AddAll(old(View()).OemGlyphs(utf8Buffer[..utf8Count]))
    {
      ghost var t, oem := View(), View().OemGlyphs(utf8Buffer[..utf8Count]);
      var index := 0;
      assert oem[..0] == [];
      while index < utf8Count
        invariant 0 <= index <= utf8Count && Shape() && outputCount < OUTPUT_BUFFER_SIZE
        invariant View() == t.AddAll(oem[..index])
      {
        hide Term.AddAll, Term.Add;
        AddOutputData(glyphs.oem(utf8Buffer[index]));
        AddAllOne(t, oem, index);
        index := index + 1;
      }
      assert oem[..index] == oem;
    }

    lemma AddAllTwice(t: Term, s: seq<int>, last: int)
      ensures t.AddAll(s).Add(last) == t.AddAll(s + [last])
    {
      AddAllOne(t, s + [last], |s|);
      assert (s + [last])[..|s|] == s && (s + [last])[..|s| + 1] == s + [last];
    }

    lemma AddAllOne(t: Term, s: seq<int>, k: nat)
      requires k < |s|
      ensures t.AddAll(s[..k]).Add(s[k]) == t.AddAll(s[..k + 1])
    {
      var u := t.AddAll(s[..k]);
      AddAllConcat(t, s[..k], [s[k]]);
      assert s[..k + 1] == s[..k] + [s[k]];
      assert [s[k]][1..] == [];
      assert u.AddAll([s[k]]) == u.Add(s[k]).AddAll([]);
    }

    method StartCollecting(s: State)
      requires Valid() && !s.Utf8?
      modifies `state, `parameterCount, `parametersStart, parameters
      ensures Valid() && View() == old(View()).Collect(s)
    {
      state := s;
      parameters[0] := 0;
      parameterCount := 0;
      parametersStart := true;
      assert parameters[..] == old(parameters[..])[0 := 0];
    }

    method EscapeFunction(b: Byte)
      requires Valid()
      modifies this
      ensures Valid() && View() == old(View()).EscapeFunction(b)
    {
      hide Display.SaveCursor, Display.RestoreCursor, Display.Linefeed, Display.ReverseLinefeed, Term.Reset;
      if b == '7' as int || b == 's' as int {
        ProcessSCP();
      } else if b == '8' as int || b == 'u' as int {
        ProcessRCP();
      } else if b == 'D' as int {
        ProcessLinefeed(false);
      } else if b == 'E' as int {
        ProcessLinefeed(true);
      } else if b == 'M' as int {
        ProcessReverseLinefeed();
      } else if b == 'c' as int {
        ResetTerm();
      }
    }

    method EscapeByte(b: Byte)
      requires Valid() && state.Escape?
      modifies this, outputBuffer, parameters
      ensures Valid() && View() == old(View()).EscapeByte(b)
    {
      if b == '[' as int {
        StartCollecting(CsiParam);
      } else if b == '#' as int {
        StartCollecting(DecPrivate);
      } else if b == '(' as int {
        StartCollecting(SelectG0);
      } else if b == ')' as int {
        StartCollecting(SelectG1);
      } else {
        hide Term.EscapeFunction, Term.AddAll;
        if IsEscapeFunction(b) {
          EscapeFunction(b);
        } else {
          AddAllOutputData(['^' as int, '[' as int, b]);
        }
        state := Normal;
      }
    }

    method DecByte(b: Byte)
      requires Valid() && state.DecPrivate?
      modifies `screen, `x, `y, `outputCount, `state, outputBuffer
      ensures Valid() && View() == old(View()).DecByte(b)
    {
      if IsDecFunction(b) {
        state := Normal;
      } else {
        AddAllOutputData(['^' as int, '[' as int, '#' as int, b]);
      }
    }

    method SelectByte(b: Byte)
      requires Valid() && (state.SelectG0? || state.SelectG1?)
      modifies `g0Charset, `g1Charset, `state
      ensures Valid() && View() == old(View()).Printable(b)
    {
      if state.SelectG0? {
        g0Charset := Designate(b, g0Charset);
      } else {
        g1Charset := Designate(b, g1Charset);
      }
      state := Normal;
    }

    method CsiFunction(b: Byte)
      requires Valid() && parameterCount >= 1
      requires b == 'h' as int ==> if privateParameters then IsSwitch(parameters[0]) else parameters[0] == 20
      modifies this, parameters
      ensures Valid() && View() == old(View()).CsiFunction(b)
    {
      hide Term.Position, Term.SetMargins, Term.SetMode, Term.ResetFirstModes, Term.DefaultOne, Term.Move,
        Display.EraseDisplay, Display.EraseLine, Display.SetAttribute, Renditions;
      if 'A' as int <= b <= 'D' as int {
        CursorFunction(b);
      } else if b == 'H' as int || b == 'f' as int {
        ProcessHVP();
      } else if b == 'J' as int {
        EraseDisplay(parameters[0]);
      } else if b == 'K' as int {
        EraseLine(parameters[0]);
      } else if b == 'h' as int {
        ProcessSM();
      } else if b == 'l' as int {
        ProcessRM();
      } else if b == 'm' as int {
        ProcessSGR();
      } else if b == 'r' as int {
        ProcessDECSTBM();
      }
    }

    method CursorFunction(b: Byte)
      requires Valid() && 'A' as int <= b <= 'D' as int
      modifies `screen, `x, `y, parameters
      ensures Valid() && View() == old(View()).CsiFunction(b)
    {
      hide Term.DefaultOne, Term.Move;
      if b == 'A' as int {
        ProcessCUU();
      } else if b == 'B' as int {
        ProcessCUD();
      } else if b == 'C' as int {
        ProcessCUF();
      } else {
        ProcessCUB();
      }
    }

    method CountParameter()
      requires Valid()
      modifies `parameterCount
      ensures Valid() && 1 <= parameterCount
      ensures View() == old(View()).(count := if old(parameterCount) < MAX_PARAMETERS then old(parameterCount) + 1 else old(parameterCount))
    {
      if parameterCount < MAX_PARAMETERS {
        parameterCount := parameterCount + 1;
      }
    }

    method Dispatch(b: Byte)
      requires Valid()
      requires b == 'h' as int ==> if privateParameters then IsSwitch(parameters[0]) else parameters[0] == 20
      modifies this, outputBuffer, parameters
      ensures Valid() && View() == old(View()).Dispatch(b)
    {
      hide Term.CsiFunction, Term.DisplayCsi, IsSwitch, IsCsiFunction;
      CountParameter();
      FunctionOrDisplay(b);
      state := Normal;
    }

    method FunctionOrDisplay(b: Byte)
      requires Valid() && parameterCount >= 1
      requires b == 'h' as int ==> if privateParameters then IsSwitch(parameters[0]) else parameters[0] == 20
      modifies this, outputBuffer, parameters
      ensures Valid() && View() == if IsCsiFunction(b) then old(View()).CsiFunction(b) else old(View()).DisplayCsi(b)
    {
      hide Term.CsiFunction, Term.DisplayCsi, IsSwitch;
      if IsCsiFunction(b) {
        CsiFunction(b);
      } else {
        DisplayCSI(b);
      }
    }

    method CsiByte(b: Byte)
      requires Valid() && state.CsiParam? && !Asserts(View(), b)
      modifies this, outputBuffer, parameters
      ensures Valid() && View() == old(View()).CsiByte(b)
    {
      if parametersStart {
        parametersStart := false;
        if b == '?' as int {
          privateParameters := true;
          return;
        } else {
          privateParameters := false;
        }
      }
      if IsDigit(b) {
        ParameterDigit(b);
      } else if b == ';' as int {
        NextParameter();
      } else {
        Dispatch(b);
      }
    }

    method ParameterDigit(b: Byte)
      requires Valid() && IsDigit(b)
      modifies parameters
      ensures Valid() && View() == old(View()).Digit(b)
    {
      if parameterCount < MAX_PARAMETERS {
        parameters[parameterCount] := Wrap32(parameters[parameterCount] * 10 + (b - '0' as int));
        assert parameters[..] == old(View()).Digit(b).params;
      }
    }

    method NextParameter()
      requires Valid()
      modifies `parameterCount, parameters
      ensures Valid() && View() == old(View()).NextParam()
    {
      if parameterCount < MAX_PARAMETERS {
        parameterCount := parameterCount + 1;
      }
      if parameterCount < MAX_PARAMETERS {
        parameters[parameterCount] := 0;
      }
      assert parameters[..] == old(View()).NextParam().params;
    }

    // ----- the entry points -----

    method ProcessByte(b: Byte)
      requires Valid() && !Asserts(View(), b)
      modifies this, outputBuffer, utf8Buffer, parameters
      ensures Valid() && View() == old(View()).Step(b)
    {
      hide Term.Control, Term.TextByte, Term.Utf8Byte, Term.EscapeByte, Term.CsiByte, Term.DecByte, Asserts, EmitAll;
      if IsControl(b) {
        var _ := OutputText();
        ControlByte(b);
      } else {
        match state
        case Normal => TextByte(b);
        case Utf8 => Utf8Byte(b);
        case Escape => EscapeByte(b);
        case CsiParam => CsiByte(b);
        case DecPrivate => DecByte(b);
        case SelectG0 => SelectByte(b);
        case SelectG1 => SelectByte(b);
      }
    }

    /** One call: every byte in turn, then drain the buffer. The precondition is the assertion the
        source makes about Set Mode; its other assertions always hold. */
    method ProcessOutput(data: seq<Byte>)
      requires Valid() && NeverAsserts(View(), data)
      modifies this, outputBuffer, utf8Buffer, parameters
      ensures Valid() && View() == old(View()).Process(data)
    {
      var current := 0;
      while current < |data|
        invariant 0 <= current <= |data| && Valid()
        invariant NeverAsserts(View(), data[current..])
        invariant View().Run(data[current..]) == old(View()).Run(data)
      {
        assert data[current..][0] == data[current] && data[current..][1..] == data[current + 1..];
        hide Term.Step;
        ProcessByte(data[current]);
        current := current + 1;
      }
      var _ := OutputText();
    }
  }
}
