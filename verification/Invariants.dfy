/** What every step of the terminal keeps, and so what holds in every reachable state. */
module Invariants {
  import opened Bytes
  import opened Console
  import opened Displays
  import opened Terminal

  ghost predicate Sized(d: Display) {
    && 1 <= d.w <= d.screen.width <= MAX_SHORT
    && 2 <= d.h <= |d.screen.rows| <= MAX_SHORT
    && d.screen.Shaped()
  }

  ghost predicate Sane(d: Display) {
    && Sized(d)
    && 0 <= d.x <= d.w && 0 <= d.y < d.h
    && 0 <= d.savedX <= d.w && 0 <= d.savedY < d.h
    && 0 <= d.top < d.bottom < d.h
    && d.screen.attr == d.attr
  }

  /** The console writes where the emulator thinks it does, unless a wrap is pending. */
  ghost predicate InSync(d: Display) {
    d.x < d.w ==> d.screen.cx == d.x && d.screen.cy == d.y + d.WindowTop() + d.Margin()
  }

  ghost predicate Good(d: Display) {
    Sane(d) && InSync(d)
  }

  ghost predicate SaneTerm(t: Term) {
    && Good(t.d)
    && |t.out| < t.cap
    && t.count <= MAX_PARAMETERS
    && (t.state.Utf8? ==> 1 <= |t.utf8| < t.utf8Size)
  }

  /** A SHORT that is no row of the window, and one that is no column or pending wrap. */
  predicate OffRows(d: Display, y: int) {
    !(0 <= Short(y) < d.h)
  }

  predicate OffColumns(d: Display, x: int) {
    !(0 <= Short(x) <= d.w)
  }

  /** The control sequences that leave the window: a motion, position or margin function whose own
      parameter is negative and, as a SHORT, far enough. `q` is the second parameter, 0 without one. */
  predicate Misses(d: Display, b: Byte, p: int, q: int) {
    || (b == 'A' as int && p < 0 && OffRows(d, d.y - p))
    || (b == 'B' as int && p < 0 && OffRows(d, d.y + Min((if d.origin then d.bottom else d.h - 1) - d.y, p)))
    || (b == 'C' as int && p < 0 && OffColumns(d, d.x + Min(d.w - d.x - 1, p)))
    || (b == 'D' as int && p < 0 && OffColumns(d, d.x - p))
    || ((b == 'H' as int || b == 'f' as int) && ((p < 0 && OffRows(d, p)) || (q < 0 && OffColumns(d, q))))
    || (b == 'r' as int && p < 0 && LastRow(d, q) < d.h && !(0 <= Short(p) < LastRow(d, q)))
  }

  /** The bottom margin a parameter asks for. */
  function LastRow(d: Display, q: int): int {
    if q <= 0 then d.h - 1 else q - 1
  }

  predicate Leaves(t: Term, b: Byte) {
    t.state.CsiParam? && Misses(t.d, b, t.params[0], if t.count < 1 then 0 else t.params[1])
  }

  predicate NeverLeaves(t: Term, bytes: seq<Byte>)
    decreases |bytes|
  {
    bytes == [] || (!Leaves(t, bytes[0]) && NeverLeaves(t.Step(bytes[0]), bytes[1..]))
  }

  // ----- the display operations -----

  lemma SetCursorIsGood(d: Display)
    requires Sane(d)
    ensures Good(d.SetCursor())
  {
  }

  /** A cursor move inside the window. */
  lemma AtIsGood(d: Display, x: int, y: int)
    requires Sane(d) && 0 <= x <= d.w && 0 <= y < d.h
    ensures Good(d.At(x, y))
  {
    SetCursorIsGood(d.(x := x, y := y));
  }

  lemma MoveIsSane(d: Display, from: int, to: int, dest: int)
    requires Sane(d)
    ensures Sane(d.Move(from, to, dest))
    ensures InSync(d) ==> InSync(d.Move(from, to, dest))
  {
    OperationsKeepShape(d.screen, 0, 0, 0, 0, from, to, dest, d.Blank());
  }

  lemma ScrollIsSane(d: Display, n: int, windowOnly: bool)
    requires Sane(d)
    ensures Sane(d.Scroll(n, windowOnly))
    ensures d.Scroll(n, windowOnly) == d.(screen := d.screen.(rows := d.Scroll(n, windowOnly).screen.rows))
  {
    var lines := Short(n);
    if lines > 0 {
      MoveIsSane(d, d.WindowTop() + d.top + lines, d.WindowTop() + d.bottom, d.WindowTop() + d.top);
      MoveIsSane(d, lines, d.WindowTop() + d.bottom, 0);
    } else if lines < 0 {
      MoveIsSane(d, d.WindowTop() + d.top, d.WindowTop() + d.bottom + 1 + lines + lines, d.WindowTop() + d.top - lines);
      MoveIsSane(d, 0, |d.screen.rows| - 1 + lines, -lines);
    }
  }

  lemma LinefeedIsGood(d: Display, newLine: bool)
    requires Good(d)
    ensures Good(d.Linefeed(newLine))
    ensures newLine ==> d.Linefeed(newLine).x == 0
  {
    var e := if newLine then d.(x := 0) else d;
    if (e.origin || e.top <= e.y <= e.bottom) && e.y >= e.bottom - e.top {
      ScrollIsSane(e, 1, false);
      SetCursorIsGood(e.Scroll(1, false).(y := e.bottom));
    } else if e.y < e.bottom {
      SetCursorIsGood(e.(y := Short(e.y + 1)));
    } else {
      SetCursorIsGood(e);
    }
  }

  lemma ReverseIsGood(d: Display)
    requires Good(d)
    ensures Good(d.ReverseLinefeed())
  {
    if d.y == 0 {
      ScrollIsSane(d, -1, true);
      SetCursorIsGood(d.Scroll(-1, true));
    } else {
      SetCursorIsGood(d.(y := Short(d.y - 1)));
    }
  }

  /** A cursor move is good exactly when it ends in the window. */
  lemma AtIsGoodExactly(d: Display, x: int, y: int)
    requires Sane(d)
    ensures Good(d.At(x, y)) <==> 0 <= x <= d.w && 0 <= y < d.h
  {
  }

  lemma MotionIsGoodExactly(d: Display, b: Byte, n: int)
    requires Sane(d) && 'A' as int <= b <= 'D' as int && n != 0
    ensures Good(Motion(d, b, n)) <==> !Misses(d, b, n, 0)
  {
    if b == 'A' as int {
      RowMotion(d, d.y - Min(d.y, n));
    } else if b == 'B' as int {
      RowMotion(d, d.y + Min((if d.origin then d.bottom else d.h - 1) - d.y, n));
    } else if b == 'C' as int {
      ColumnMotion(d, d.x + Min(d.w - d.x - 1, n));
    } else {
      ColumnMotion(d, d.x - Min(d.x, n));
    }
    hide Good, Display.At, Short;
  }

  lemma RowMotion(d: Display, y: int)
    requires Sane(d)
    ensures Good(d.At(d.x, Short(y))) <==> !OffRows(d, y)
  {
    AtIsGoodExactly(d, d.x, Short(y));
  }

  lemma ColumnMotion(d: Display, x: int)
    requires Sane(d)
    ensures Good(d.At(Short(x), d.y)) <==> !OffColumns(d, x)
  {
    AtIsGoodExactly(d, Short(x), d.y);
  }

  lemma AttributeIsGood(d: Display, a: Attribute)
    requires Good(d)
    ensures Good(d.SetAttribute(a))
  {
  }

  lemma SaveIsGood(d: Display)
    requires Good(d)
    ensures Good(d.SaveCursor())
  {
  }

  lemma RestoreIsGood(d: Display)
    requires Good(d)
    ensures Good(d.RestoreCursor())
  {
    AtIsGood(d, d.savedX, d.savedY);
  }

  lemma ReturnIsGood(d: Display)
    requires Good(d)
    ensures Good(d.At(0, d.y))
  {
    AtIsGood(d, 0, d.y);
  }

  lemma BackspaceIsGood(d: Display)
    requires Good(d)
    ensures Good(d.Backspace())
  {
    if d.x > 0 {
      AtIsGood(d, if d.x < d.w then d.x - 1 else d.w - 1, d.y);
    }
  }

  lemma EraseIsGood(d: Display, col: int, row: int, len: int)
    requires Good(d)
    ensures Good(d.Erase(col, row, len))
  {
    OperationsKeepShape(d.screen, 0, col, d.WindowTop() + row, Dword(len), 0, 0, 0, d.Blank());
  }

  lemma EraseDisplayIsGood(d: Display, kind: int)
    requires Good(d)
    ensures Good(d.EraseDisplay(kind))
  {
    hide Good, Display.Erase;
    var width := d.screen.width;
    if kind == ERASE_CURSOR_TO_END {
      EraseIsGood(d, d.x, d.y + d.Margin(), (d.h - d.y - d.Margin()) * width - d.x);
      EraseIsGood(d, 0, d.y + 1, (d.h - d.y - d.Margin() - 1) * width);
    } else if kind == ERASE_BEGINNING_TO_CURSOR {
      EraseIsGood(d, 0, 0, (d.y + d.Margin()) * width + d.x);
      EraseIsGood(d, 0, 0, (d.y + d.Margin() + 1) * width);
    } else {
      EraseIsGood(d, 0, 0, width * d.h);
    }
  }

  lemma EraseLineIsGood(d: Display, kind: int)
    requires Good(d)
    ensures Good(d.EraseLine(kind))
  {
    var row := d.y + d.Margin();
    hide Good, Display.Erase;
    if kind == ERASE_CURSOR_TO_END {
      EraseIsGood(d, d.x, row, d.screen.width - d.x);
    } else if kind == ERASE_BEGINNING_TO_CURSOR {
      EraseIsGood(d, 0, row, if d.x < d.w then d.x + 1 else d.screen.width);
    } else {
      EraseIsGood(d, 0, row, d.screen.width);
    }
  }

  lemma WriteOneIsGood(d: Display, ch: int)
    requires Good(d) && d.x < d.w
    ensures Good(d.WriteChars([ch]))
  {
    assert d.screen.Write([ch]) == d.screen.Put(ch) by {
      assert [ch][1..] == [];
    }
    OperationsKeepShape(d.screen, ch, 0, 0, 0, 0, 0, 0, d.Blank());
  }

  lemma EmitIsGood(d: Display, ch: int)
    requires Good(d)
    ensures Good(d.Emit(ch))
  {
    LinefeedIsGood(d, true);
    WriteOneIsGood(d.Settled(), ch);
  }

  lemma {:induction false} EmitAllIsGood(d: Display, s: seq<int>)
    requires Good(d)
    ensures Good(EmitAll(d, s))
    decreases |s|
  {
    if s != [] {
      EmitIsGood(d, s[0]);
      EmitAllIsGood(d.Emit(s[0]), s[1..]);
    }
  }

  lemma ResetIsGood(d: Display)
    requires Sized(d)
    ensures Good(d.Reset())
  {
    var e := d.(x := 0, y := 0, savedX := 0, savedY := 0, top := 0, bottom := Short(d.h - 1), origin := false, wrap := true)
      .SetAttribute(DEFAULT_ATTRIBUTE);
    EraseIsGood(e.SetCursor(), 0, 0, e.screen.width * e.h);
    OperationsKeepShape(e.screen, 0, 0, e.WindowTop(), Dword(e.screen.width * e.h), 0, 0, 0, e.Blank());
    SetCursorIsGood(e.EraseDisplay(ERASE_ALL));
  }

  // ----- the terminal operations -----

  lemma FlushIsSane(t: Term)
    requires SaneTerm(t)
    ensures SaneTerm(t.Flush())
  {
    EmitAllIsGood(t.d, t.out);
  }

  lemma AddIsSane(t: Term, ch: int)
    requires SaneTerm(t)
    ensures SaneTerm(t.Add(ch))
    ensures t.Add(ch) == t.(d := t.Add(ch).d, out := t.Add(ch).out)
  {
    EmitAllIsGood(t.d, t.out + [ch]);
  }

  lemma {:induction false} AddAllIsSane(t: Term, s: seq<int>)
    requires SaneTerm(t)
    ensures SaneTerm(t.AddAll(s))
    ensures t.AddAll(s) == t.(d := t.AddAll(s).d, out := t.AddAll(s).out)
    decreases |s|
  {
    if s != [] {
      AddIsSane(t, s[0]);
      AddAllIsSane(t.Add(s[0]), s[1..]);
    }
  }

  lemma ShowIsSane(t: Term, d: Display)
    requires SaneTerm(t) && Good(d)
    ensures SaneTerm(t.Show(d))
  {
  }

  lemma TabIsSane(t: Term)
    requires SaneTerm(t)
    ensures SaneTerm(t.Tab())
  {
    if t.d.x < t.d.w || t.d.wrap {
      var u := t;
      if t.d.x >= t.d.w {
        LinefeedIsGood(t.d, true);
        u := t.Show(t.d.Linefeed(true));
        ShowIsSane(t, t.d.Linefeed(true));
      }
      AddAllIsSane(u, Spaces(TabStop(u.d.x, u.d.w) - u.d.x));
    }
  }

  lemma ControlIsSane(t: Term, b: Byte)
    requires SaneTerm(t) && IsControl(b)
    ensures SaneTerm(t.Control(b))
  {
    hide Good;
    if b == 0x08 {
      BackspaceIsGood(t.d);
      ShowIsSane(t, t.d.Backspace());
    } else if b == 0x09 {
      TabIsSane(t);
    } else if 0x0A <= b <= 0x0C {
      LinefeedIsGood(t.d, t.modes.newLine);
      ShowIsSane(t, t.d.Linefeed(t.modes.newLine));
    } else if b == 0x0D {
      ReturnIsGood(t.d);
      ShowIsSane(t, t.d.At(0, t.d.y));
    } else if IsStray(b) {
      AddIsSane(t, t.glyphs.oem(b));
    }
  }

  lemma TextIsSane(t: Term, b: Byte)
    requires SaneTerm(t) && t.state.Normal?
    ensures SaneTerm(t.TextByte(b))
  {
    hide Good;
    AddIsSane(t, t.glyphs.oem(b));
    AddIsSane(t, t.Glyph(b));
  }

  lemma Utf8IsSane(t: Term, b: Byte)
    requires SaneTerm(t) && t.state.Utf8?
    ensures SaneTerm(t.Utf8Byte(b))
  {
    hide Good;
    if b / 0x40 != 2 {
      AddAllIsSane(t, t.OemGlyphs(t.utf8) + [if b >= 0x80 then t.glyphs.oem(b) else b]);
    } else {
      var u := t.(utf8 := t.utf8 + [b]);
      if |u.utf8| == t.utf8Size {
        var ch := DecodeUtf8(u.utf8);
        AddIsSane(u.Enter(Normal), ch);
        assert u.Add(ch).Enter(Normal) == u.Enter(Normal).Add(ch);
      }
    }
  }

  lemma EscapeIsSane(t: Term, b: Byte)
    requires SaneTerm(t) && t.state.Escape?
    ensures SaneTerm(t.EscapeByte(b))
  {
    hide Good;
    if IsEscapeFunction(b) {
      EscapeFunctionIsSane(t, b);
    } else if b != '[' as int && b != '#' as int && b != '(' as int && b != ')' as int {
      AddAllIsSane(t, ['^' as int, '[' as int, b]);
    }
  }

  lemma ResetIsSane(t: Term)
    requires SaneTerm(t)
    ensures SaneTerm(t.Reset())
  {
    ResetIsGood(t.d);
  }

  lemma EscapeFunctionIsSane(t: Term, b: Byte)
    requires SaneTerm(t)
    ensures SaneTerm(t.EscapeFunction(b))
  {
    hide Good;
    if b == 'c' as int {
      ResetIsSane(t);
    } else {
      EscapeActionIsGood(t.d, b);
      ShowIsSane(t, EscapeAction(t.d, b));
    }
  }

  lemma EscapeActionIsGood(d: Display, b: Byte)
    requires Good(d)
    ensures Good(EscapeAction(d, b))
  {
    hide Good;
    if b == '7' as int || b == 's' as int {
      SaveIsGood(d);
    } else if b == '8' as int || b == 'u' as int {
      RestoreIsGood(d);
    } else if b == 'D' as int {
      LinefeedIsGood(d, false);
    } else if b == 'E' as int {
      LinefeedIsGood(d, true);
    } else if b == 'M' as int {
      ReverseIsGood(d);
    }
  }

  lemma {:induction false} ResetModesIsSane(t: Term, k: nat)
    requires SaneTerm(t) && k <= MAX_PARAMETERS
    ensures SaneTerm(t.ResetFirstModes(k))
  {
    if k != 0 {
      ResetModesIsSane(t, k - 1);
      ResetModeIsSane(t.ResetFirstModes(k - 1), t.params[k - 1]);
    }
  }

  lemma ResetModeIsSane(t: Term, p: int)
    requires SaneTerm(t)
    ensures SaneTerm(t.ResetMode(p))
  {
    AtIsGood(t.d.(origin := false), 0, 0);
  }

  lemma SetModeIsSane(t: Term)
    requires SaneTerm(t)
    ensures SaneTerm(t.SetMode())
  {
    AtIsGood(t.d.(origin := true, savedX := 0, savedY := 0), 0, 0);
  }

  lemma PositionIsSaneExactly(t: Term, b: Byte)
    requires SaneTerm(t) && t.count >= 1 && (b == 'H' as int || b == 'f' as int)
    ensures SaneTerm(t.Position()) <==> !Misses(t.d, b, t.params[0], if t.count < 2 then 0 else t.params[1])
  {
    var p := t.PositionParams();
    AtIsGoodExactly(t.d, Short(p[1]), Short(p[0]));
    hide Good, Display.At;
  }

  lemma SetMarginsIsSaneExactly(t: Term)
    requires SaneTerm(t) && t.count >= 1
    ensures SaneTerm(t.SetMargins()) <==> !Misses(t.d, 'r' as int, t.params[0], if t.count < 2 then 0 else t.params[1])
  {
    var p := t.MarginParams();
    assert p[1] == LastRow(t.d, if t.count < 2 then 0 else t.params[1]);
    hide Term.MarginParams;
    WithMarginsIsSaneExactly(t.(params := p), p[0], p[1]);
  }

  lemma WithMarginsIsSaneExactly(t: Term, top: int, bottom: int)
    requires SaneTerm(t) && 0 <= bottom
    ensures SaneTerm(t.WithMargins(top, bottom)) <==> !(top < 0 && bottom < t.d.h && top < bottom && !(0 <= Short(top) < bottom))
  {
    if top < bottom < t.d.h {
      var d := t.d.(top := Short(top), bottom := Short(bottom));
      if 0 <= Short(top) < bottom {
        AtIsGood(d, 0, 0);
        ShowIsSane(t, d.At(0, 0));
      }
    }
  }

  lemma MotionFunctionIsSaneExactly(t: Term, b: Byte)
    requires SaneTerm(t) && 'A' as int <= b <= 'D' as int
    ensures SaneTerm(t.CsiFunction(b)) <==> !Misses(t.d, b, t.params[0], 0)
  {
    var u := t.DefaultOne();
    MotionIsGoodExactly(u.d, b, u.params[0]);
    hide Good, Motion;
  }

  /** From a good display, and whatever the parameters hold, a control sequence function keeps the
      bounds exactly when it does not leave the window. */
  lemma CsiFunctionIsSaneExactly(t: Term, b: Byte)
    requires SaneTerm(t) && t.count >= 1
    ensures SaneTerm(t.CsiFunction(b)) <==> !Misses(t.d, b, t.params[0], if t.count < 2 then 0 else t.params[1])
  {
    hide Good;
    if 'A' as int <= b <= 'D' as int {
      MotionFunctionIsSaneExactly(t, b);
    } else if b == 'H' as int || b == 'f' as int {
      PositionIsSaneExactly(t, b);
    } else if b == 'r' as int {
      SetMarginsIsSaneExactly(t);
    } else {
      OtherFunctionIsSane(t, b);
    }
  }

  lemma OtherFunctionIsSane(t: Term, b: Byte)
    requires SaneTerm(t)
    requires !('A' as int <= b <= 'D' as int) && b != 'H' as int && b != 'f' as int && b != 'r' as int
    ensures SaneTerm(t.CsiFunction(b))
  {
    hide Good;
    if b == 'h' as int {
      SetModeIsSane(t);
    } else if b == 'l' as int {
      ResetModesIsSane(t, t.count);
    } else if b == 'J' as int {
      EraseDisplayIsGood(t.d, t.params[0]);
      ShowIsSane(t, t.d.EraseDisplay(t.params[0]));
    } else if b == 'K' as int {
      EraseLineIsGood(t.d, t.params[0]);
      ShowIsSane(t, t.d.EraseLine(t.params[0]));
    } else if b == 'm' as int {
      AttributeIsGood(t.d, Renditions(t.d.attr, t.FirstParams()));
      ShowIsSane(t, t.d.SetAttribute(Renditions(t.d.attr, t.FirstParams())));
    }
  }

  lemma EnterIsSane(t: Term)
    requires !t.state.Utf8?
    ensures SaneTerm(t.Enter(Normal)) <==> SaneTerm(t)
  {
  }

  lemma {:induction false} ResetModesKeepsState(t: Term, k: nat)
    requires k <= MAX_PARAMETERS
    ensures t.ResetFirstModes(k).state == t.state
  {
    if k != 0 {
      ResetModesKeepsState(t, k - 1);
    }
  }

  lemma CsiFunctionKeepsState(t: Term, b: Byte)
    ensures t.CsiFunction(b).state == t.state
  {
    if b == 'l' as int {
      ResetModesKeepsState(t, if t.count <= MAX_PARAMETERS then t.count else MAX_PARAMETERS);
    }
    hide Term.ResetFirstModes, Term.PositionParams, Term.MarginParams;
  }

  lemma FunctionIsSaneExactly(t: Term, b: Byte)
    requires SaneTerm(t) && t.state.CsiParam? && t.count >= 1
    ensures SaneTerm(t.CsiFunction(b).Enter(Normal)) <==> !Misses(t.d, b, t.params[0], if t.count < 2 then 0 else t.params[1])
  {
    CsiFunctionIsSaneExactly(t, b);
    CsiFunctionKeepsState(t, b);
    EnterIsSane(t.CsiFunction(b));
    hide *;
  }

  lemma DispatchIsSaneExactly(t: Term, b: Byte)
    requires SaneTerm(t) && t.count <= MAX_PARAMETERS && t.state.CsiParam?
    ensures SaneTerm(t.Dispatch(b)) <==> !Misses(t.d, b, t.params[0], if t.count < 1 then 0 else t.params[1])
  {
    var u := t.(count := if t.count < MAX_PARAMETERS then t.count + 1 else t.count);
    DispatchIs(t, b, u);
    hide *;
    CountIsSane(t, u);
    if IsCsiFunction(b) {
      FunctionIsSaneExactly(u, b);
    } else {
      OnlyFunctionsMiss(t.d, b, t.params[0], if t.count < 1 then 0 else t.params[1]);
      EchoIsSane(u, b);
    }
  }

  lemma DispatchIs(t: Term, b: Byte, u: Term)
    requires t.count <= MAX_PARAMETERS && u == t.(count := if t.count < MAX_PARAMETERS then t.count + 1 else t.count)
    ensures t.Dispatch(b) == (if IsCsiFunction(b) then u.CsiFunction(b) else u.DisplayCsi(b)).Enter(Normal)
    ensures u.state == t.state && u.d == t.d && u.params == t.params && 1 <= u.count <= MAX_PARAMETERS
    ensures u.count < 2 <==> t.count < 1
  {
    hide Term.CsiFunction, Term.DisplayCsi, IsCsiFunction;
  }

  lemma CountIsSane(t: Term, u: Term)
    requires SaneTerm(t) && u == t.(count := u.count) && u.count <= MAX_PARAMETERS
    ensures SaneTerm(u)
  {
    hide Good;
  }

  lemma OnlyFunctionsMiss(d: Display, b: Byte, p: int, q: int)
    requires !IsCsiFunction(b)
    ensures !Misses(d, b, p, q)
  {
  }

  lemma EchoIsSane(t: Term, b: Byte)
    requires SaneTerm(t)
    ensures SaneTerm(t.DisplayCsi(b).Enter(Normal))
  {
    hide Good, CsiText, Term.FirstParams;
    AddAllIsSane(t, CsiText(t.FirstParams(), b));
  }

  lemma CsiIsSaneExactly(t: Term, b: Byte)
    requires SaneTerm(t) && t.state.CsiParam?
    ensures SaneTerm(t.CsiByte(b)) <==> !Leaves(t, b)
  {
    var u := if t.start then t.(start := false, isPrivate := false) else t;
    assert SaneTerm(u);
    hide Good;
    if !(t.start && b == '?' as int) && !IsDigit(b) && b != ';' as int {
      DispatchIsSaneExactly(u, b);
      hide Misses, Term.Dispatch;
    }
  }

  lemma DecIsSane(t: Term, b: Byte)
    requires SaneTerm(t) && t.state.DecPrivate?
    ensures SaneTerm(t.DecByte(b))
  {
    AddAllIsSane(t, ['^' as int, '[' as int, '#' as int, b]);
  }

  /** One byte keeps every bound exactly when it does not leave the window. */
  lemma StepKeepsSane(t: Term, b: Byte)
    requires SaneTerm(t)
    ensures SaneTerm(t.Step(b)) <==> !Leaves(t, b)
  {
    if IsControl(b) {
      FlushIsSane(t);
      ControlIsSane(t.Flush(), b);
      assert !Leaves(t, b);
    } else {
      match t.state
      case Normal => TextIsSane(t, b);
      case Utf8 => Utf8IsSane(t, b);
      case Escape => EscapeIsSane(t, b);
      case CsiParam => CsiIsSaneExactly(t, b);
      case DecPrivate => DecIsSane(t, b);
      case SelectG0 =>
      case SelectG1 =>
    }
  }

  /** The bounds hold after every byte of a run exactly when no byte leaves the window. */
  lemma {:induction false} RunKeepsSane(t: Term, bytes: seq<Byte>)
    requires SaneTerm(t)
    ensures NeverLeaves(t, bytes) <==> forall k | 0 <= k <= |bytes| :: SaneTerm(t.Run(bytes[..k]))
    ensures NeverLeaves(t, bytes) ==> SaneTerm(t.Run(bytes))
    decreases |bytes|
  {
    if bytes != [] {
      var u, rest := t.Step(bytes[0]), bytes[1..];
      StepKeepsSane(t, bytes[0]);
      hide SaneTerm, Leaves, Term.Step;
      assert forall k | 1 <= k <= |bytes| :: bytes[..k][0] == bytes[0] && bytes[..k][1..] == rest[..k - 1];
      assert forall k | 1 <= k <= |bytes| :: t.Run(bytes[..k]) == u.Run(rest[..k - 1]);
      if SaneTerm(u) {
        RunKeepsSane(u, rest);
        assert forall j | 0 <= j <= |rest| :: u.Run(rest[..j]) == t.Run(bytes[..j + 1]);
        assert t.Run(bytes[..0]) == t;
      } else {
        assert t.Run(bytes[..1]) == u.Run(rest[..0]) == u;
      }
    }
  }

  /** A resize starts over from a sane state, whatever the margins and cursor were. */
  lemma ResizeIsSane(t: Term, s: Screen, w: int, h: int)
    requires t.cap >= 1 && t.count <= MAX_PARAMETERS
    requires Sized(t.d.(screen := s, w := w, h := h))
    ensures SaneTerm(t.Resize(s, w, h)) && t.Resize(s, w, h).state == Normal
  {
    ResetIsGood(t.d.(screen := s, w := w, h := h));
  }

  // ----- whole runs -----

  /** What happens to a terminal: a call with some bytes, or the console being resized. */
  datatype Event = Output(bytes: seq<Byte>) | Resized(screen: Screen, w: int, h: int)

  function After(t: Term, e: Event): Term {
    match e
    case Output(bytes) => t.Process(bytes)
    case Resized(s, w, h) => t.Resize(s, w, h)
  }

  function AfterAll(t: Term, events: seq<Event>): Term
    decreases |events|
  {
    if events == [] then t else AfterAll(After(t, events[0]), events[1..])
  }

  /** Consoles are rectangular, at least two rows high and as large as their window, and no byte leaves the window. */
  ghost predicate Proper(t: Term, events: seq<Event>)
    decreases |events|
  {
    events == [] ||
    ((match events[0]
      case Output(bytes) => NeverLeaves(t, bytes)
      case Resized(s, w, h) => Sized(t.d.(screen := s, w := w, h := h))) &&
     Proper(After(t, events[0]), events[1..]))
  }

  /** Over every run of bytes and resizes every bound holds, and the console writes at the tracked cursor. */
  lemma {:induction false} EveryRunIsSane(t: Term, events: seq<Event>)
    requires SaneTerm(t) && Proper(t, events)
    ensures SaneTerm(AfterAll(t, events))
    decreases |events|
  {
    if events != [] {
      match events[0] {
        case Output(bytes) =>
          RunKeepsSane(t, bytes);
          FlushIsSane(t.Run(bytes));
        case Resized(s, w, h) =>
          ResizeIsSane(t, s, w, h);
      }
      hide SaneTerm;
      EveryRunIsSane(After(t, events[0]), events[1..]);
    }
  }

  /** A terminal just opened on such a console is where every run starts, whatever its parameters hold. */
  lemma OpenedIsSane(t: Term, d: Display, s: Screen)
    requires Sized(d.(screen := s)) && t.d == d.(screen := Opened(s, d.h)).Reset()
    requires t.cap >= 1 && t.out == [] && t.state == Normal && t.count <= MAX_PARAMETERS
    ensures SaneTerm(t)
  {
    var e := d.(screen := s);
    var blank := Cell(SPACE, DEFAULT_ATTRIBUTE);
    var lines := Short(s.cy - (|s.rows| - d.h));
    OperationsKeepShape(s, 0, 0, 0, 0, lines, |s.rows| - 1, 0, blank);
    OperationsKeepShape(s, 0, 0, 0, 0, 0, |s.rows| - 1 + lines, -lines, blank);
    assert Opened(s, d.h).width == s.width;
    hide Screen.MoveRows;
    ResetIsGood(d.(screen := Opened(s, d.h)));
  }

  // ----- parameters that stay C ints -----

  /** A digit that takes the parameter it extends out of a C int, into the negatives. */
  predicate Overflows(t: Term, b: Byte) {
    && t.state.CsiParam? && IsDigit(b) && t.count < MAX_PARAMETERS
    && Wrap32(t.params[t.count] * 10 + (b - '0' as int)) < 0
  }

  predicate NeverOverflows(t: Term, bytes: seq<Byte>)
    decreases |bytes|
  {
    bytes == [] || (!Overflows(t, bytes[0]) && NeverOverflows(t.Step(bytes[0]), bytes[1..]))
  }

  /** The parameters read so far; the other cells may hold anything. */
  predicate LiveParameters(t: Term) {
    t.state.CsiParam? ==> forall i | 0 <= i <= t.count && i < MAX_PARAMETERS :: 0 <= t.params[i]
  }

  lemma StepKeepsLive(t: Term, b: Byte)
    requires SaneTerm(t) && LiveParameters(t) && !Overflows(t, b)
    ensures LiveParameters(t.Step(b)) && !Leaves(t, b)
  {
    hide Good;
    if t.state.CsiParam? {
      if IsControl(b) {
        FlushIsSane(t);
        ControlKeepsParser(t.Flush(), b);
      } else {
        assert !IsDigit(b) && b != ';' as int && !(t.start && b == '?' as int) ==> t.Step(b).state == Normal;
      }
    } else {
      NoLateEntry(t, b);
    }
  }

  lemma ControlKeepsParser(t: Term, b: Byte)
    requires SaneTerm(t) && IsControl(b)
    ensures var u := t.Control(b); u.params == t.params && u.count == t.count && (u.state == t.state || u.state == Escape)
  {
    if b == 0x09 {
      TabKeepsParser(t);
    } else {
      hide Good, Display.Linefeed, Display.Backspace, Display.At;
      AddIsSane(t, t.glyphs.oem(b));
    }
    hide Term.Tab;
  }

  lemma TabKeepsParser(t: Term)
    requires SaneTerm(t)
    ensures var u := t.Tab(); u.params == t.params && u.count == t.count && u.state == t.state
  {
    hide Good, Display.Linefeed, TabStop, Spaces;
    if t.d.x < t.d.w || t.d.wrap {
      var u := if t.d.x >= t.d.w then t.Show(t.d.Linefeed(true)) else t;
      LinefeedIsGood(t.d, true);
      AddAllIsSane(u, Spaces(TabStop(u.d.x, u.d.w) - u.d.x));
    }
  }

  /** A control sequence begins with its first parameter at 0. */
  lemma NoLateEntry(t: Term, b: Byte)
    requires SaneTerm(t) && !t.state.CsiParam?
    ensures var u := t.Step(b); u.state.CsiParam? ==> u.count == 0 && u.params[0] == 0
  {
    hide Good;
    if IsControl(b) {
      FlushIsSane(t);
      ControlKeepsParser(t.Flush(), b);
    } else if t.state.DecPrivate? {
      AddAllIsSane(t, ['^' as int, '[' as int, '#' as int, b]);
    }
  }

  /** Sequences whose parameters stay below 2^31 never leave the window. */
  lemma {:induction false} SmallParametersNeverLeave(t: Term, bytes: seq<Byte>)
    requires SaneTerm(t) && LiveParameters(t) && NeverOverflows(t, bytes)
    ensures NeverLeaves(t, bytes) && SaneTerm(t.Run(bytes))
    decreases |bytes|
  {
    if bytes != [] {
      StepKeepsLive(t, bytes[0]);
      StepKeepsSane(t, bytes[0]);
      hide SaneTerm, LiveParameters, Leaves, Overflows, Term.Step;
      SmallParametersNeverLeave(t.Step(bytes[0]), bytes[1..]);
    }
  }
}
