/** The byte-driven state machine of the emulator: what one byte, and then any run of bytes,
    does to parser state, modes, output buffer and display. The buffer capacity is a
    parameter: with capacity 1 every character reaches the screen before the next byte. */
module Terminal {
  import opened Bytes
  import opened Console
  import opened Displays

  const ESC: Byte := 0x1B

  const MAX_PARAMETERS := 16
  const OUTPUT_BUFFER_SIZE := 256

  type Params = s: seq<int> | |s| == MAX_PARAMETERS witness seq(MAX_PARAMETERS, _ => 0)

  type Utf8Size = n: int | 2 <= n <= 3 witness 2

  datatype State = Normal | Utf8 | Escape | CsiParam | DecPrivate | SelectG0 | SelectG1

  datatype Charset = Ascii | SpecialGraphics

  /** The two glyph tables, kept abstract: any total maps. */
  datatype Glyphs = Glyphs(oem: Byte -> int, graphics: Byte -> int)

  function CharsetGlyph(glyphs: Glyphs, special: bool, b: Byte): int {
    if special && 0x5F <= b <= 0x7E then glyphs.graphics(b) else b
  }

  datatype Modes = Modes(
    newLine: bool, cursorKey: bool, ansi: bool, column: bool, scrolling: bool,
    reverse: bool, autoRepeat: bool, interlace: bool, showCursor: bool)

  const RESET_MODES := Modes(true, false, true, true, false, false, true, false, true)

  /** A C int after an addition or multiplication that may have overflowed. */
  function Wrap32(n: int): (r: int)
    ensures -0x8000_0000 <= r < 0x8000_0000
    ensures -0x8000_0000 <= n < 0x8000_0000 ==> r == n
  {
    (n + 0x8000_0000) % 0x1_0000_0000 - 0x8000_0000
  }

  function Spaces(n: int): seq<int> {
    if n <= 0 then [] else seq(n, _ => SPACE)
  }

  function Decimal(n: nat): (r: seq<Byte>)
    ensures r != [] && forall c <- r :: IsDigit(c)
    decreases n
  {
    if n < 10 then ['0' as int + n] else Decimal(n / 10) + ['0' as int + n % 10]
  }

  /** What sprintf does with "%d". */
  function Printed(n: int): seq<Byte> {
    if n < 0 then ['-' as int] + Decimal(-n) else Decimal(n)
  }

  function PrintedList(ps: seq<int>): seq<Byte>
    decreases |ps|
  {
    if ps == [] then []
    else if |ps| == 1 then Printed(ps[0])
    else PrintedList(ps[..|ps| - 1]) + [';' as int] + Printed(ps[|ps| - 1])
  }

  predicate IsControl(b: Byte) {
    b < 0x20 || b == 0x7F
  }

  /** NUL, ENQ, BEL, XON, XOFF and DEL leave no trace on the terminal. */
  predicate IsIgnored(b: Byte) {
    b == 0x00 || b == 0x05 || b == 0x07 || b == 0x11 || b == 0x13 || b == 0x7F
  }

  /** The control bytes with a case of their own besides the ignored ones: BS to SI, and ESC. */
  predicate IsFormat(b: Byte) {
    0x08 <= b <= 0x0F || b == 0x1B
  }

  /** A control byte without a case of its own prints its OEM glyph. */
  predicate IsStray(b: Byte) {
    IsControl(b) && !IsIgnored(b) && !IsFormat(b)
  }

  predicate IsDigit(b: int) {
    '0' as int <= b <= '9' as int
  }

  function DecodeUtf8(bytes: seq<Byte>): int
    requires |bytes| == 2 || |bytes| == 3
  {
    if |bytes| == 2 then
      (bytes[0] as int % 0x20) * 0x40 + bytes[1] as int % 0x40
    else
      (bytes[0] as int % 0x10) * 0x1000 + (bytes[1] as int % 0x40) * 0x40 + bytes[2] as int % 0x40
  }

  const INTENSITY: Attribute := 0x0008
  const UNDERSCORE: Attribute := 0x8000
  const REVERSE: Attribute := 0x4000
  const FOREGROUND: Attribute := 0x0007
  const BACKGROUND: Attribute := 0x0070

  function ColorBits(n: int): Attribute {
    (if n % 2 == 1 then 4 else 0) | (if n / 2 % 2 == 1 then 2 else 0) | (if n / 4 % 2 == 1 then 1 else 0)
  }

  /** One Select Graphics Rendition parameter. */
  function Rendition(a: Attribute, p: int): Attribute {
    if p == 1 then a | INTENSITY
    else if p == 4 then a | UNDERSCORE
    else if p == 5 || p == 25 then a
    else if p == 7 then a | REVERSE
    else if p == 22 then a & !INTENSITY
    else if p == 24 then a & !UNDERSCORE
    else if p == 27 then a & !REVERSE
    else if p == 30 then a & !(INTENSITY | UNDERSCORE | FOREGROUND)
    else if 31 <= p <= 37 then (a & !FOREGROUND) | ColorBits(p - 30)
    else if 40 <= p <= 47 then (a & !BACKGROUND) | (ColorBits(p - 40) << 4)
    else DEFAULT_ATTRIBUTE
  }

  function Renditions(a: Attribute, ps: seq<int>): Attribute
    decreases |ps|
  {
    if ps == [] then a else Rendition(Renditions(a, ps[..|ps| - 1]), ps[|ps| - 1])
  }

  datatype Term = Term(
    glyphs: Glyphs, cap: nat, d: Display, state: State, useG1: bool, g0: Charset, g1: Charset,
    utf8: seq<Byte>, utf8Size: Utf8Size, params: Params, count: nat, start: bool, isPrivate: bool,
    modes: Modes, out: seq<int>)
  {
    // ----- output -----

    function Flush(): Term {
      this.(d := EmitAll(d, out), out := [])
    }

    function Add(ch: int): Term {
      var t := this.(out := out + [ch]);
      if |t.out| >= cap then t.Flush() else t
    }

    function AddAll(s: seq<int>): Term
      decreases |s|
    {
      if s == [] then this else Add(s[0]).AddAll(s[1..])
    }

    function Show(newD: Display): Term {
      this.(d := newD)
    }

    function Enter(s: State): Term {
      this.(state := s)
    }

    // ----- control bytes -----

    function Tab(): Term {
      if d.x >= d.w && !d.wrap then this
      else
        var t := if d.x >= d.w then Show(d.Linefeed(true)) else this;
        t.AddAll(Spaces(TabStop(t.d.x, t.d.w) - t.d.x))
    }

    function Control(b: Byte): Term {
      if b == 0x08 then Show(d.Backspace())
      else if b == 0x09 then Tab()
      else if 0x0A <= b <= 0x0C then Show(d.Linefeed(modes.newLine))
      else if b == 0x0D then Show(d.At(0, d.y))
      else if b == 0x0E then this.(useG1 := true)
      else if b == 0x0F then this.(useG1 := false)
      else if b == 0x1B then Enter(Escape)
      else if IsIgnored(b) then this
      else Add(glyphs.oem(b))
    }

    // ----- text -----

    predicate Special() {
      (if useG1 then g1 else g0).SpecialGraphics?
    }

    function Glyph(b: Byte): int {
      CharsetGlyph(glyphs, Special(), b)
    }

    function LeadByte(b: Byte): Term {
      if b / 0x20 == 6 then this.(utf8 := [b], utf8Size := 2, state := Utf8)
      else if b / 0x10 == 0xE then this.(utf8 := [b], utf8Size := 3, state := Utf8)
      else Add(glyphs.oem(b))
    }

    function TextByte(b: Byte): Term {
      if b >= 0x80 then LeadByte(b) else Add(Glyph(b))
    }

    function OemGlyphs(bytes: seq<Byte>): seq<int> {
      seq(|bytes|, i requires 0 <= i < |bytes| => glyphs.oem(bytes[i]))
    }

    function Utf8Byte(b: Byte): Term {
      if b / 0x40 != 2 then
        AddAll(OemGlyphs(utf8) + [if b >= 0x80 then glyphs.oem(b) else b]).Enter(Normal)
      else
        var t := this.(utf8 := utf8 + [b]);
        if |t.utf8| == utf8Size then t.Add(DecodeUtf8(t.utf8)).Enter(Normal) else t
    }

    // ----- escape sequences -----

    function Collect(s: State): Term {
      this.(state := s, params := params[0 := 0], count := 0, start := true)
    }

    function Reset(): Term {
      this.(state := Normal, useG1 := false, g0 := Ascii, g1 := SpecialGraphics,
            d := d.Reset(), out := [], modes := RESET_MODES)
    }

    function EscapeFunction(b: Byte): Term {
      if b == 'c' as int then Reset() else Show(EscapeAction(d, b))
    }

    function EscapeByte(b: Byte): Term {
      if b == '[' as int then Collect(CsiParam)
      else if b == '#' as int then Collect(DecPrivate)
      else if b == '(' as int then Collect(SelectG0)
      else if b == ')' as int then Collect(SelectG1)
      else if IsEscapeFunction(b) then EscapeFunction(b).Enter(Normal)
      else AddAll(['^' as int, '[' as int, b]).Enter(Normal)
    }

    /** The double-height and alignment functions do nothing, and an unknown byte leaves the state. */
    function DecByte(b: Byte): Term {
      if IsDecFunction(b) then Enter(Normal)
      else AddAll(['^' as int, '[' as int, '#' as int, b])
    }

    // ----- control sequences -----

    function DefaultOne(): Term {
      if params[0] == 0 then this.(params := params[0 := 1]) else this
    }

    function Move(b: Byte): Term {
      Show(Motion(d, b, params[0]))
    }

    /** Row and column for the cursor, from 1-based parameters, kept inside the window or the margins. */
    function PositionParams(): Params {
      var row := if params[0] > 0 then params[0] - 1 else params[0];
      var col := if count < 2 then 0 else if params[1] > 0 then params[1] - 1 else params[1];
      var last := if d.origin then d.bottom - d.top else d.h - 1;
      params[0 := if row > last then last else row][1 := if col >= d.w then d.w - 1 else col]
    }

    function Position(): Term {
      var p := PositionParams();
      this.(params := p, d := d.At(Short(p[1]), Short(p[0])))
    }

    function MarginParams(): Params {
      var top := if params[0] > 0 then params[0] - 1 else params[0];
      var bottom := if count < 2 || params[1] <= 0 then d.h - 1 else params[1] - 1;
      params[0 := top][1 := bottom]
    }

    function SetMargins(): Term {
      var p := MarginParams();
      this.(params := p).WithMargins(p[0], p[1])
    }

    function WithMargins(top: int, bottom: int): Term {
      if top >= d.h || bottom >= d.h || top >= bottom then this
      else Show(d.(top := Short(top), bottom := Short(bottom)).At(0, 0))
    }

    /** Set Mode looks at parameter 0 only. */
    function SetMode(): Term {
      var p := params[0];
      if isPrivate then
        if p == 6 then Show(d.(origin := true, savedX := 0, savedY := 0).At(0, 0))
        else if p == 7 then Show(d.(wrap := true))
        else this.(modes := SwitchMode(modes, p, true))
      else if p == 20 then this.(modes := modes.(newLine := true))
      else this
    }

    function ResetMode(p: int): Term {
      if isPrivate then
        if p == 6 then Show(d.(origin := false).At(0, 0))
        else if p == 7 then Show(d.(wrap := false))
        else this.(modes := SwitchMode(modes, p, false))
      else if p == 20 then this.(modes := modes.(newLine := false))
      else this
    }

    function ResetFirstModes(k: nat): Term
      requires k <= MAX_PARAMETERS
    {
      if k == 0 then this else ResetFirstModes(k - 1).ResetMode(params[k - 1])
    }

    /** The functions of the CSI table; the ones without effect here are c, g, n, q, x and y. */
    function CsiFunction(b: Byte): Term {
      if 'A' as int <= b <= 'D' as int then DefaultOne().Move(b)
      else if b == 'H' as int || b == 'f' as int then Position()
      else if b == 'J' as int then Show(d.EraseDisplay(params[0]))
      else if b == 'K' as int then Show(d.EraseLine(params[0]))
      else if b == 'h' as int then SetMode()
      else if b == 'l' as int then ResetFirstModes(if count <= MAX_PARAMETERS then count else MAX_PARAMETERS)
      else if b == 'm' as int then Show(d.SetAttribute(Renditions(d.attr, FirstParams())))
      else if b == 'r' as int then SetMargins()
      else this
    }

    function FirstParams(): seq<int> {
      if count <= MAX_PARAMETERS then params[..count] else params
    }

    function Digit(b: Byte): Term {
      if count < MAX_PARAMETERS then
        this.(params := params[count := Wrap32(params[count] * 10 + (b - '0' as int))])
      else this
    }

    function NextParam(): Term {
      var n := if count < MAX_PARAMETERS then count + 1 else count;
      this.(count := n, params := if n < MAX_PARAMETERS then params[n := 0] else params)
    }

    /** An unrecognised control sequence is shown as text; the final byte goes through a char. */
    function DisplayCsi(b: Byte): Term {
      AddAll(CsiText(FirstParams(), b))
    }

    function Dispatch(b: Byte): Term {
      var t := this.(count := if count < MAX_PARAMETERS then count + 1 else count);
      (if IsCsiFunction(b) then t.CsiFunction(b) else t.DisplayCsi(b)).Enter(Normal)
    }

    function CsiByte(b: Byte): Term {
      if start && b == '?' as int then this.(start := false, isPrivate := true)
      else
        var t := if start then this.(start := false, isPrivate := false) else this;
        if IsDigit(b) then t.Digit(b)
        else if b == ';' as int then t.NextParam()
        else t.Dispatch(b)
    }

    // ----- one byte, any run of bytes, one call -----

    function Printable(b: Byte): Term {
      match state
      case Normal => TextByte(b)
      case Utf8 => Utf8Byte(b)
      case Escape => EscapeByte(b)
      case CsiParam => CsiByte(b)
      case DecPrivate => DecByte(b)
      case SelectG0 => this.(g0 := Designate(b, g0), state := Normal)
      case SelectG1 => this.(g1 := Designate(b, g1), state := Normal)
    }

    function Step(b: Byte): Term {
      if IsControl(b) then Flush().Control(b) else Printable(b)
    }

    function Run(bytes: seq<Byte>): Term
      decreases |bytes|
    {
      if bytes == [] then this else Step(bytes[0]).Run(bytes[1..])
    }

    /** One ProcessOutput call. */
    function Process(bytes: seq<Byte>): Term {
      Run(bytes).Flush()
    }

    /** WindowSizeChanged after the first call: the console reports new sizes and contents. */
    function Resize(s: Screen, w: int, h: int): Term {
      Show(d.(screen := s, w := w, h := h)).Reset()
    }
  }

  /** The character set a designation leaves selected. */
  function Designate(b: Byte, current: Charset): Charset {
    if b == 'B' as int then Ascii else if b == '0' as int then SpecialGraphics else current
  }

  /** The functions of the escape table that act on the display; `=`, `>`, `H` and `Z` do nothing. */
  function EscapeAction(d: Display, b: Byte): Display {
    if b == '7' as int || b == 's' as int then d.SaveCursor()
    else if b == '8' as int || b == 'u' as int then d.RestoreCursor()
    else if b == 'D' as int then d.Linefeed(false)
    else if b == 'E' as int then d.Linefeed(true)
    else if b == 'M' as int then d.ReverseLinefeed()
    else d
  }

  /** The motion functions of the CSI table: A, B, C and D. */
  function Motion(d: Display, b: Byte, n: int): Display {
    if b == 'A' as int then d.CursorUp(n)
    else if b == 'B' as int then d.CursorDown(n)
    else if b == 'C' as int then d.CursorForward(n)
    else d.CursorBack(n)
  }

  function TabStop(x: int, w: int): int {
    var next := (x + 8) / 8 * 8;
    if next >= w then w - 1 else next
  }

  predicate IsEscapeFunction(b: Byte) {
    || b == '=' as int || b == '>' as int || b == '7' as int || b == '8' as int
    || b == 'D' as int || b == 'E' as int || b == 'H' as int
    || b == 'M' as int || b == 'Z' as int
    || b == 'c' as int || b == 's' as int || b == 'u' as int
  }

  predicate IsDecFunction(b: Byte) {
    b == '8' as int || '3' as int <= b <= '6' as int
  }

  predicate IsCsiFunction(b: Byte) {
    || 'A' as int <= b <= 'D' as int
    || b == 'H' as int || b == 'J' as int || b == 'K' as int
    || b == 'c' as int || b == 'f' as int || b == 'g' as int || b == 'h' as int
    || b == 'l' as int || b == 'm' as int || b == 'n' as int || b == 'q' as int
    || b == 'r' as int || b == 'x' as int || b == 'y' as int
  }

  /** A byte as a signed char, widened to a 16-bit character. */
  function SignedChar(b: Byte): int {
    if b < 0x80 then b else 0xFF00 + b
  }

  function CsiText(ps: seq<int>, b: Byte): seq<int> {
    ['^' as int, '[' as int, '[' as int] + PrintedList(ps) + [SignedChar(b)]
  }

  predicate IsSwitch(p: int) {
    1 <= p <= 9 || p == 25
  }

  /** The bytes on which ProcessOutput asserts: Set Mode with a mode it does not know. */
  predicate Asserts(t: Term, b: Byte) {
    t.state.CsiParam? && b == 'h' as int &&
    !(if !t.start && t.isPrivate then IsSwitch(t.params[0]) else t.params[0] == 20)
  }

  predicate NeverAsserts(t: Term, bytes: seq<Byte>)
    decreases |bytes|
  {
    bytes == [] || (!Asserts(t, bytes[0]) && NeverAsserts(t.Step(bytes[0]), bytes[1..]))
  }

  function SwitchMode(m: Modes, p: int, on: bool): Modes {
    Modes(m.newLine, if p == 1 then on else m.cursorKey, if p == 2 then on else m.ansi, if p == 3 then on else m.column,
          if p == 4 then on else m.scrolling, if p == 5 then on else m.reverse, if p == 8 then on else m.autoRepeat,
          if p == 9 then on else m.interlace, if p == 25 then on else m.showCursor)
  }

  /** The first look at the console: its rows are shifted so that its cursor row becomes the window's first. */
  function Opened(s: Screen, h: int): Screen {
    var lines := Short(s.cy - (|s.rows| - h));
    var blank := Cell(SPACE, DEFAULT_ATTRIBUTE);
    if lines == 0 then s
    else if lines > 0 then s.MoveRows(lines, |s.rows| - 1, 0, blank)
    else s.MoveRows(0, |s.rows| - 1 + lines, -lines, blank)
  }

  lemma {:induction false} RunConcat(t: Term, a: seq<Byte>, b: seq<Byte>)
    ensures t.Run(a + b) == t.Run(a).Run(b)
    decreases |a|
  {
    if a == [] {
      assert a + b == b;
    } else {
      assert (a + b)[0] == a[0];
      assert (a + b)[1..] == a[1..] + b;
      RunConcat(t.Step(a[0]), a[1..], b);
    }
  }

  lemma {:induction false} AddAllConcat(t: Term, a: seq<int>, b: seq<int>)
    ensures t.AddAll(a + b) == t.AddAll(a).AddAll(b)
    decreases |a|
  {
    if a == [] {
      assert a + b == b;
    } else {
      assert (a + b)[0] == a[0] && (a + b)[1..] == a[1..] + b;
      AddAllConcat(t.Add(a[0]), a[1..], b);
    }
  }

  lemma RunOne(t: Term, b: Byte)
    ensures t.Run([b]) == t.Step(b)
  {
    assert [b][1..] == [];
    assert t.Step(b).Run([]) == t.Step(b);
  }
}
