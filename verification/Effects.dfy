/** What the bytes a program sends do to the terminal: every control byte, escape sequence and control
    sequence function, in terms of the cursor, the margins, the modes, the attribute and the cells. */
module Effects {
  import opened Bytes
  import opened Console
  import opened Displays
  import opened Terminal
  import opened Invariants
  import opened ControlSequences
  import Buffering
  import Draining
  import Scrolling
  import TerminalLog

  /** Between calls: nothing waits to be written. */
  ghost predicate Idle(t: Term) {
    t.out == [] && t.cap == OUTPUT_BUFFER_SIZE && Sane(t.d)
  }

  /** `u` is `t` with display `d` and in the normal state. */
  ghost predicate EndsWith(t: Term, u: Term, d: Display) {
    SameButScratch(t.(d := d, state := Normal), u)
  }

  /** The cursor in column `x`, row `y`, and the console's cursor with it. */
  function CursorAt(d: Display, x: int, y: int): Display {
    d.(x := x, y := y,
       screen := d.screen.(cx := x, cy := |d.screen.rows| - d.h + y + (if d.origin then d.top else 0)))
  }

  /** Parameter `k` as a number that counts from 1: it is 1 if it is 0 or not there. */
  function OneBased(args: seq<Argument>, k: nat): int {
    if k < |args| && args[k].Value() != 0 then args[k].Value() else 1
  }

  /** A function of the table begins with the parameters, and with the terminal as it was. */
  lemma FunctionBegins(t: Term, marked: bool, args: seq<Argument>, final: Byte) returns (u: Term)
    requires Idle(t) && args != [] && IsCsiFunction(final)
    ensures Dispatched(t, u, marked, args)
    ensures u.d == t.d && u.count == Min(|args|, 16) && u.isPrivate == marked
    ensures u.params[0] == args[0].Value() && (|args| > 1 ==> u.params[1] == args[1].Value())
    ensures t.Run(Sequence(marked, args, final)) == u.CsiFunction(final).Enter(Normal)
  {
    u := SequenceIsRead(t, marked, args, final);
    Buffering.EmitNothing(t.d);
    hide Term.Run, Sequence, EmitAll, Argument.Value, Term.CsiFunction, IsCsiFunction, Idle;
    assert t.Flush() == t;
  }

  ghost predicate Dispatched(t: Term, u: Term, marked: bool, args: seq<Argument>) {
    && u == t.(state := CsiParam, params := u.params, count := Min(|args|, 16), start := false, isPrivate := marked)
    && forall k | 0 <= k < |args| && k < 16 :: u.params[k] == args[k].Value()
  }

  /** A function that shows `d` and uses its parameters up ends as said. */
  lemma FunctionEnds(t: Term, u: Term, v: Term, marked: bool, args: seq<Argument>, d: Display)
    requires Dispatched(t, u, marked, args) && v == u.(d := d, params := v.params)
    ensures EndsWith(t, v.Enter(Normal), d)
  {
  }

  // ----- moving the cursor -----

  /** ESC [ r ; c H (or f) goes to row r and column c, counted from 1 and, in origin mode, from the top
      margin, but not past the last column nor the last row or bottom margin. */
  lemma PositionGoesThere(t: Term, marked: bool, args: seq<Argument>, final: Byte)
    requires Idle(t) && args != [] && (final == 'H' as int || final == 'f' as int)
    requires OneBased(args, 0) >= 1 && OneBased(args, 1) >= 1
    ensures var row, col := OneBased(args, 0), OneBased(args, 1);
            var rows := if t.d.origin then t.d.bottom - t.d.top + 1 else t.d.h;
            EndsWith(t, t.Run(Sequence(marked, args, final)),
                     CursorAt(t.d, (if col <= t.d.w then col else t.d.w) - 1, (if row <= rows then row else rows) - 1))
  {
    assert Sane(t.d) && IsCsiFunction(final);
    hide *;
    var u := FunctionBegins(t, marked, args, final);
    var v := u.CsiFunction(final);
    var d := PositionStep(u, args, final);
    FunctionEnds(t, u, v, marked, args, d);
  }

  lemma PositionStep(u: Term, args: seq<Argument>, final: Byte) returns (d: Display)
    requires Sane(u.d) && args != [] && (final == 'H' as int || final == 'f' as int) && u.count == Min(|args|, 16)
    requires u.params[0] == args[0].Value() && (|args| > 1 ==> u.params[1] == args[1].Value())
    requires OneBased(args, 0) >= 1 && OneBased(args, 1) >= 1
    ensures var row, col := OneBased(args, 0), OneBased(args, 1);
            var rows := if u.d.origin then u.d.bottom - u.d.top + 1 else u.d.h;
            d == CursorAt(u.d, (if col <= u.d.w then col else u.d.w) - 1, (if row <= rows then row else rows) - 1)
    ensures var v := u.CsiFunction(final); v == u.(d := d, params := v.params)
  {
    assert u.CsiFunction(final) == u.Position();
    hide Term.CsiFunction, Argument.Value;
    d := u.Position().d;
  }

  /** ESC [ n A, B, C or D goes n up, down, right or left, but not past the first or last row or column,
      or in origin mode the bottom margin. */
  lemma MotionGoesThere(t: Term, marked: bool, args: seq<Argument>, final: Byte)
    requires Idle(t) && args != [] && 'A' as int <= final <= 'D' as int && OneBased(args, 0) >= 1
    ensures var n, d := OneBased(args, 0), t.d;
            var last := if d.origin then d.bottom else d.h - 1;
            EndsWith(t, t.Run(Sequence(marked, args, final)),
                     if final == 'A' as int then CursorAt(d, d.x, if n <= d.y then d.y - n else 0)
                     else if final == 'B' as int then CursorAt(d, d.x, if d.y + n <= last then d.y + n else last)
                     else if final == 'C' as int then CursorAt(d, if d.x + n < d.w then d.x + n else d.w - 1, d.y)
                     else CursorAt(d, if n <= d.x then d.x - n else 0, d.y))
  {
    assert Sane(t.d) && IsCsiFunction(final);
    hide *;
    var u := FunctionBegins(t, marked, args, final);
    var v := u.CsiFunction(final);
    var d := MotionStep(u, args, final);
    FunctionEnds(t, u, v, marked, args, d);
  }

  lemma MotionStep(u: Term, args: seq<Argument>, final: Byte) returns (e: Display)
    requires Sane(u.d) && args != [] && 'A' as int <= final <= 'D' as int && OneBased(args, 0) >= 1
    requires u.params[0] == args[0].Value()
    ensures var n, d := OneBased(args, 0), u.d;
            var last := if d.origin then d.bottom else d.h - 1;
            e == if final == 'A' as int then CursorAt(d, d.x, if n <= d.y then d.y - n else 0)
                 else if final == 'B' as int then CursorAt(d, d.x, if d.y + n <= last then d.y + n else last)
                 else if final == 'C' as int then CursorAt(d, if d.x + n < d.w then d.x + n else d.w - 1, d.y)
                 else CursorAt(d, if n <= d.x then d.x - n else 0, d.y)
    ensures var v := u.CsiFunction(final); v == u.(d := e, params := v.params)
  {
    var v := u.DefaultOne();
    assert u.CsiFunction(final) == v.Move(final);
    assert v == u.(params := v.params) && v.params[0] == OneBased(args, 0);
    e := Motion(u.d, final, OneBased(args, 0));
    hide Term.CsiFunction, Term.DefaultOne, Motion, Sane, CursorAt, OneBased;
    if final <= 'B' as int {
      RowMotions(u.d, OneBased(args, 0));
    } else {
      ColumnMotions(u.d, OneBased(args, 0));
    }
  }

  lemma RowMotions(d: Display, n: int)
    requires Sane(d) && n >= 1
    ensures Motion(d, 'A' as int, n) == CursorAt(d, d.x, if n <= d.y then d.y - n else 0)
    ensures var last := if d.origin then d.bottom else d.h - 1;
            Motion(d, 'B' as int, n) == CursorAt(d, d.x, if d.y + n <= last then d.y + n else last)
  {
  }

  lemma ColumnMotions(d: Display, n: int)
    requires Sane(d) && n >= 1
    ensures Motion(d, 'C' as int, n) == CursorAt(d, if d.x + n < d.w then d.x + n else d.w - 1, d.y)
    ensures Motion(d, 'D' as int, n) == CursorAt(d, if n <= d.x then d.x - n else 0, d.y)
  {
  }

  /** ESC [ p ; q r makes rows p to q the scroll region and homes the cursor if they are a region of two
      rows or more of the window, and otherwise does nothing; q left out is the last row. */
  lemma MarginsAreSetExactly(t: Term, marked: bool, args: seq<Argument>)
    requires Idle(t) && args != [] && OneBased(args, 0) >= 1
    ensures var p, q := OneBased(args, 0), if |args| > 1 && args[1].Value() > 0 then args[1].Value() else t.d.h;
            EndsWith(t, t.Run(Sequence(marked, args, 'r' as int)),
                     if p < q <= t.d.h then CursorAt(t.d.(top := p - 1, bottom := q - 1), 0, 0) else t.d)
  {
    assert Sane(t.d) && IsCsiFunction('r' as int);
    hide *;
    var u := FunctionBegins(t, marked, args, 'r' as int);
    var v := u.CsiFunction('r' as int);
    var d := MarginStep(u, args);
    FunctionEnds(t, u, v, marked, args, d);
  }

  lemma MarginStep(u: Term, args: seq<Argument>) returns (d: Display)
    requires Sane(u.d) && args != [] && OneBased(args, 0) >= 1 && u.count == Min(|args|, 16)
    requires u.params[0] == args[0].Value() && (|args| > 1 ==> u.params[1] == args[1].Value())
    ensures var p, q := OneBased(args, 0), if |args| > 1 && args[1].Value() > 0 then args[1].Value() else u.d.h;
            d == if p < q <= u.d.h then CursorAt(u.d.(top := p - 1, bottom := q - 1), 0, 0) else u.d
    ensures var v := u.CsiFunction('r' as int); v == u.(d := d, params := v.params)
  {
    assert u.CsiFunction('r' as int) == u.SetMargins();
    var p := u.MarginParams();
    assert p[0] + 1 == OneBased(args, 0);
    assert p[1] + 1 == if |args| > 1 && args[1].Value() > 0 then args[1].Value() else u.d.h;
    hide Term.CsiFunction, Argument.Value, Term.MarginParams, OneBased;
    d := u.SetMargins().d;
  }

  // ----- modes -----

  predicate KeptMode(m: Modes, p: int) {
    match p
    case 1 => m.cursorKey
    case 2 => m.ansi
    case 3 => m.column
    case 4 => m.scrolling
    case 5 => m.reverse
    case 8 => m.autoRepeat
    case 9 => m.interlace
    case 25 => m.showCursor
    case _ => false
  }

  /** Mode `p` is on: of the marked ones 6 is origin mode and 7 autowrap, and 20 of the others makes a
      line feed return as well. */
  predicate ModeOn(t: Term, marked: bool, p: int) {
    if !marked then p == 20 && t.modes.newLine
    else if p == 6 then t.d.origin
    else if p == 7 then t.d.wrap
    else KeptMode(t.modes, p)
  }

  predicate IsMode(marked: bool, p: int) {
    if marked then 1 <= p <= 9 || p == 25 else p == 20
  }

  /** Mode `p` is now `on`, if there is such a mode, and the others are as they were. */
  ghost predicate Switched(t: Term, u: Term, marked: bool, p: int, on: bool) {
    forall m, q :: ModeOn(u, m, q) <==> if m == marked && q == p && IsMode(m, q) then on else ModeOn(t, m, q)
  }

  /** `e` is `d` but for two modes, and, if `home`, with the cursor home. */
  ghost predicate OnlyModes(d: Display, e: Display, home: bool) {
    var f := d.(origin := e.origin, wrap := e.wrap);
    e == if home then CursorAt(f, 0, 0) else f
  }

  lemma OriginSwitched(t: Term, u: Term)
    requires u.modes == t.modes && u.d.wrap == t.d.wrap
    ensures Switched(t, u, true, 6, u.d.origin)
  {
    hide KeptMode;
  }

  lemma WrapSwitched(t: Term, u: Term)
    requires u.modes == t.modes && u.d.origin == t.d.origin
    ensures Switched(t, u, true, 7, u.d.wrap)
  {
    hide KeptMode;
  }

  lemma KeptSwitched(t: Term, u: Term, p: int, on: bool)
    requires u.modes == SwitchMode(t.modes, p, on) && u.d.origin == t.d.origin && u.d.wrap == t.d.wrap && p != 6 && p != 7
    ensures Switched(t, u, true, p, on)
  {
    SwitchIs(t.modes, p, on);
    hide KeptMode, SwitchMode, IsMode;
    forall m: bool, q ensures ModeOn(u, m, q) <==> if m == true && q == p && IsMode(m, q) then on else ModeOn(t, m, q) {
    }
    hide ModeOn;
  }

  lemma SwitchIs(m: Modes, p: int, on: bool)
    requires p != 6 && p != 7
    ensures var n := SwitchMode(m, p, on);
            && n.newLine == m.newLine
            && forall q | q != 6 && q != 7 :: KeptMode(n, q) <==> if q == p && IsMode(true, p) then on else KeptMode(m, q)
  {
    forall q | q != 6 && q != 7
      ensures KeptMode(SwitchMode(m, p, on), q) <==> if q == p && IsMode(true, p) then on else KeptMode(m, q)
    {
      if q == p {
        SwitchedItself(m, p, on);
      } else {
        SwitchLeaves(m, p, on, q);
      }
      hide SwitchMode, KeptMode;
    }
  }

  lemma SwitchedItself(m: Modes, p: int, on: bool)
    requires p != 6 && p != 7
    ensures KeptMode(SwitchMode(m, p, on), p) <==> IsMode(true, p) && on
  {
  }

  lemma SwitchLeaves(m: Modes, p: int, on: bool, q: int)
    requires p != q
    ensures KeptMode(SwitchMode(m, p, on), q) <==> KeptMode(m, q)
  {
  }

  lemma NewLineSwitched(t: Term, u: Term, p: int, on: bool)
    requires u.modes == (if p == 20 then t.modes.(newLine := on) else t.modes) && u.d.origin == t.d.origin && u.d.wrap == t.d.wrap
    ensures Switched(t, u, false, p, on)
  {
    forall m: bool, q ensures ModeOn(u, m, q) <==> if m == false && q == p && IsMode(m, q) then on else ModeOn(t, m, q) {
      if p == 20 {
        NewLineIsApart(t.modes, on, q);
      }
      hide KeptMode;
    }
    hide ModeOn, IsMode;
  }

  lemma NewLineIsApart(m: Modes, on: bool, q: int)
    ensures KeptMode(m.(newLine := on), q) <==> KeptMode(m, q)
  {
  }

  lemma SetModeSwitches(u: Term)
    ensures var v := u.SetMode();
            && v == u.(modes := v.modes, d := v.d)
            && Switched(u, v, u.isPrivate, u.params[0], true)
  {
    var v, p := u.SetMode(), u.params[0];
    assert v == u.(modes := v.modes, d := v.d);
    hide KeptMode, SwitchMode, Switched;
    if u.isPrivate && p == 6 {
      OriginSwitched(u, v);
    } else if u.isPrivate && p == 7 {
      WrapSwitched(u, v);
    } else if u.isPrivate {
      KeptSwitched(u, v, p, true);
    } else {
      NewLineSwitched(u, v, p, true);
    }
  }

  lemma SetModeMoves(u: Term)
    ensures var home := u.isPrivate && u.params[0] == 6;
            OnlyModes(if home then u.d.(savedX := 0, savedY := 0) else u.d, u.SetMode().d, home)
  {
    hide SwitchMode;
  }

  /** What a function that changes modes leaves. */
  lemma ModesEnd(t: Term, u: Term, v: Term, marked: bool, args: seq<Argument>)
    requires Dispatched(t, u, marked, args) && v == u.(modes := v.modes, d := v.d)
    ensures SameButScratch(t.(state := Normal, modes := v.modes, d := v.d), v.Enter(Normal))
    ensures forall m, q :: ModeOn(t, m, q) <==> ModeOn(u, m, q)
    ensures forall m, q :: ModeOn(v.Enter(Normal), m, q) <==> ModeOn(v, m, q)
  {
    hide KeptMode;
  }

  /** ESC [ ? p h turns mode p on, origin mode with the cursor and the saved cursor home, and ESC [ p h
      does so for mode 20. Parameters after the first are ignored. */
  lemma ModeIsSet(t: Term, marked: bool, args: seq<Argument>)
    requires Idle(t) && args != [] && IsMode(marked, args[0].Value())
    ensures var u, p := t.Run(Sequence(marked, args, 'h' as int)), args[0].Value();
            var home := marked && p == 6;
            && SameButScratch(t.(state := Normal, modes := u.modes, d := u.d), u)
            && OnlyModes(if home then t.d.(savedX := 0, savedY := 0) else t.d, u.d, home)
            && forall m, q :: ModeOn(u, m, q) <==> ModeOn(t, m, q) || (m == marked && q == p)
  {
    var u := FunctionBegins(t, marked, args, 'h' as int);
    var v := u.CsiFunction('h' as int);
    assert v == u.SetMode();
    assert u.isPrivate == marked && u.params[0] == args[0].Value() && u.d == t.d;
    SetModeSwitches(u);
    SetModeMoves(u);
    hide *;
    ModesEnd(t, u, v, marked, args);
    SwitchedOn(u, v, marked, args[0].Value());
    assert v.Enter(Normal).d == v.d && v.Enter(Normal).modes == v.modes;
  }

  /** The bytes that a call must not hold: ESC [ p h with an unknown mode, on which the source asserts. */
  lemma AssertsExactly(t: Term, b: Byte)
    ensures Asserts(t, b) <==>
            t.state == CsiParam && b == 'h' as int && !IsMode(!t.start && t.isPrivate, t.params[0])
  {
  }

  lemma SwitchedOn(t: Term, u: Term, marked: bool, p: int)
    requires Switched(t, u, marked, p, true) && IsMode(marked, p)
    ensures forall m, q :: ModeOn(u, m, q) <==> ModeOn(t, m, q) || (m == marked && q == p)
  {
    hide ModeOn, IsMode;
  }

  lemma ResetModeSwitches(u: Term, p: int)
    ensures var v := u.ResetMode(p);
            && v == u.(modes := v.modes, d := v.d)
            && Switched(u, v, u.isPrivate, p, false)
            && OnlyModes(u.d, v.d, u.isPrivate && p == 6)
  {
    var v := u.ResetMode(p);
    assert v == u.(modes := v.modes, d := v.d);
    assert OnlyModes(u.d, v.d, u.isPrivate && p == 6);
    hide KeptMode, SwitchMode, Switched, OnlyModes;
    if u.isPrivate && p == 6 {
      OriginSwitched(u, v);
    } else if u.isPrivate && p == 7 {
      WrapSwitched(u, v);
    } else if u.isPrivate {
      KeptSwitched(u, v, p, false);
    } else {
      NewLineSwitched(u, v, p, false);
    }
  }

  /** The modes in `ps` are off, and the others as they were. */
  ghost predicate SwitchedOff(t: Term, u: Term, marked: bool, ps: seq<int>) {
    forall m, q :: ModeOn(u, m, q) <==> ModeOn(t, m, q) && !(m == marked && q in ps)
  }

  lemma OneMoreOff(t: Term, u: Term, v: Term, marked: bool, ps: seq<int>, p: int)
    requires SwitchedOff(t, u, marked, ps) && Switched(u, v, marked, p, false)
    ensures SwitchedOff(t, v, marked, ps + [p])
  {
    assert forall q :: q in ps + [p] <==> q in ps || q == p;
    assert forall m, q | !IsMode(m, q) :: !ModeOn(t, m, q);
    hide ModeOn, IsMode;
  }

  lemma HomeTwice(d: Display, e: Display, f: Display, before: bool, now: bool)
    requires OnlyModes(d, e, before) && OnlyModes(e, f, now) && (before ==> !e.origin && !f.origin)
    ensures OnlyModes(d, f, before || now)
  {
  }

  lemma {:induction false} ModesGoOff(u: Term, k: nat)
    requires k <= MAX_PARAMETERS
    ensures var v, ps := u.ResetFirstModes(k), u.params[..k];
            && v == u.(modes := v.modes, d := v.d)
            && SwitchedOff(u, v, u.isPrivate, ps)
            && OnlyModes(u.d, v.d, u.isPrivate && 6 in ps)
    decreases k
  {
    if k > 0 {
      var ps, p := u.params[..k - 1], u.params[k - 1];
      ModesGoOff(u, k - 1);
      var v := u.ResetFirstModes(k - 1);
      ResetModeSwitches(v, p);
      assert u.params[..k] == ps + [p];
      OneMoreOff(u, v, v.ResetMode(p), u.isPrivate, ps, p);
      assert u.isPrivate && 6 in ps ==> !ModeOn(v, true, 6) && !ModeOn(v.ResetMode(p), true, 6);
      HomeTwice(u.d, v.d, v.ResetMode(p).d, u.isPrivate && 6 in ps, u.isPrivate && p == 6);
      hide Term.ResetMode, OnlyModes, SwitchedOff, Switched;
    }
  }

  /** ESC [ ? p1 ; ... ; pk l turns every listed mode off, and homes the cursor if origin mode is one of
      them; ESC [ ... l does so for mode 20. */
  lemma ModesAreReset(t: Term, marked: bool, args: seq<Argument>)
    requires Idle(t) && args != [] && |args| <= 16
    ensures var u, ps := t.Run(Sequence(marked, args, 'l' as int)), seq(|args|, k requires 0 <= k < |args| => args[k].Value());
            && SameButScratch(t.(state := Normal, modes := u.modes, d := u.d), u)
            && OnlyModes(t.d, u.d, marked && 6 in ps)
            && forall m, q :: ModeOn(u, m, q) <==> ModeOn(t, m, q) && !(m == marked && q in ps)
  {
    var ps := seq(|args|, k requires 0 <= k < |args| => args[k].Value());
    var u := FunctionBegins(t, marked, args, 'l' as int);
    var v := u.CsiFunction('l' as int);
    assert v == u.ResetFirstModes(|args|) && u.isPrivate == marked && u.d == t.d;
    assert u.params[..|args|] == ps;
    ModesGoOff(u, |args|);
    assert SwitchedOff(u, v, marked, ps);
    ModesEnd(t, u, v, marked, args);
    assert v.Enter(Normal).d == v.d && v.Enter(Normal).modes == v.modes;
    hide Term.CsiFunction, Term.ResetFirstModes, Idle, Argument.Value, ModeOn, OnlyModes, SameButScratch, Dispatched, Sequence, Term.Run;
  }

  // ----- colours -----

  /** `b` is attribute `a` after parameter `p`: foreground red, green and blue are bits 2, 1 and 0,
      background ones bits 6, 5 and 4, intensity bit 3, underscore bit 15 and reverse bit 14. */
  predicate Painted(a: Attribute, b: Attribute, p: int) {
    if 30 <= p <= 37 then
      && (b & 4 != 0 <==> p == 31 || p == 33 || p == 35 || p == 37)
      && (b & 2 != 0 <==> p == 32 || p == 33 || p == 36 || p == 37)
      && (b & 1 != 0 <==> 34 <= p)
      && b & 0xFFF8 == if p == 30 then a & 0x7FF0 else a & 0xFFF8
    else if 40 <= p <= 47 then
      && (b & 0x40 != 0 <==> p == 41 || p == 43 || p == 45 || p == 47)
      && (b & 0x20 != 0 <==> p == 42 || p == 43 || p == 46 || p == 47)
      && (b & 0x10 != 0 <==> 44 <= p)
      && b & 0xFF8F == a & 0xFF8F
    else if p == 1 || p == 22 then (b & 8 != 0 <==> p == 1) && b & 0xFFF7 == a & 0xFFF7
    else if p == 4 || p == 24 then (b & 0x8000 != 0 <==> p == 4) && b & 0x7FFF == a & 0x7FFF
    else if p == 7 || p == 27 then (b & 0x4000 != 0 <==> p == 7) && b & 0xBFFF == a & 0xBFFF
    else if p == 5 || p == 25 then b == a
    else b == 7
  }

  lemma RenditionPaints(a: Attribute, p: int)
    ensures Painted(a, Rendition(a, p), p)
  {
    if p == 30 {
      BlackPaints(a);
    } else if 31 <= p <= 37 {
      ForegroundPaints(a, p);
    } else if 40 <= p <= 47 {
      BackgroundPaints(a, p);
    } else if p == 1 || p == 22 {
      IntensityPaints(a, p);
    } else if p == 4 || p == 24 {
      UnderscorePaints(a, p);
    } else if p == 7 || p == 27 {
      ReversePaints(a, p);
    } else {
      OthersPaint(a, p);
    }
    hide *;
  }

  lemma BlackPaints(a: Attribute)
    ensures Painted(a, Rendition(a, 30), 30)
  {
    assert Rendition(a, 30) == a & !(INTENSITY | UNDERSCORE | FOREGROUND);
    hide *;
    BlackText(a);
  }

  lemma ForegroundPaints(a: Attribute, p: int)
    requires 31 <= p <= 37
    ensures Painted(a, Rendition(a, p), p)
  {
    ColorBitsAre(p - 30);
    Foreground(a, ColorBits(p - 30), p);
    hide Painted, ColorBits;
  }

  lemma Foreground(a: Attribute, c: Attribute, p: int)
    requires 31 <= p <= 37 && IsColor(c, p - 30)
    ensures Painted(a, (a & !FOREGROUND) | c, p)
  {
    ForegroundBits(a, c);
  }

  lemma BackgroundPaints(a: Attribute, p: int)
    requires 40 <= p <= 47
    ensures Painted(a, Rendition(a, p), p)
  {
    ColorBitsAre(p - 40);
    Background(a, ColorBits(p - 40), p);
    hide Painted, ColorBits;
  }

  lemma Background(a: Attribute, c: Attribute, p: int)
    requires 40 <= p <= 47 && IsColor(c, p - 40)
    ensures Painted(a, (a & !BACKGROUND) | (c << 4), p)
  {
    BackgroundBits(a, c);
  }

  lemma IntensityPaints(a: Attribute, p: int)
    requires p == 1 || p == 22
    ensures Painted(a, Rendition(a, p), p)
  {
    assert Rendition(a, p) == if p == 1 then a | INTENSITY else a & !INTENSITY;
    hide *;
    IntensityOn(a);
    IntensityOff(a);
  }

  lemma UnderscorePaints(a: Attribute, p: int)
    requires p == 4 || p == 24
    ensures Painted(a, Rendition(a, p), p)
  {
    assert Rendition(a, p) == if p == 4 then a | UNDERSCORE else a & !UNDERSCORE;
    hide *;
    UnderscoreOn(a);
    UnderscoreOff(a);
  }

  lemma ReversePaints(a: Attribute, p: int)
    requires p == 7 || p == 27
    ensures Painted(a, Rendition(a, p), p)
  {
    assert Rendition(a, p) == if p == 7 then a | REVERSE else a & !REVERSE;
    hide *;
    ReverseOn(a);
    ReverseOff(a);
  }

  lemma OthersPaint(a: Attribute, p: int)
    requires !(30 <= p <= 37) && !(40 <= p <= 47) && p != 1 && p != 22 && p != 4 && p != 24 && p != 7 && p != 27
    ensures Painted(a, Rendition(a, p), p)
  {
    assert Rendition(a, p) == if p == 5 || p == 25 then a else 7;
    hide Rendition;
  }

  lemma BlackText(a: Attribute)
    ensures Painted(a, a & !(INTENSITY | UNDERSCORE | FOREGROUND), 30)
  {
  }

  lemma IntensityOn(a: Attribute)
    ensures Painted(a, a | INTENSITY, 1)
  {
  }

  lemma IntensityOff(a: Attribute)
    ensures Painted(a, a & !INTENSITY, 22)
  {
  }

  lemma UnderscoreOn(a: Attribute)
    ensures Painted(a, a | UNDERSCORE, 4)
  {
  }

  lemma UnderscoreOff(a: Attribute)
    ensures Painted(a, a & !UNDERSCORE, 24)
  {
  }

  lemma ReverseOn(a: Attribute)
    ensures Painted(a, a | REVERSE, 7)
  {
  }

  lemma ReverseOff(a: Attribute)
    ensures Painted(a, a & !REVERSE, 27)
  {
  }

  /** `c` is red, green and blue, from bit 2 down, of colour `n` in the order of the parameters. */
  predicate IsColor(c: Attribute, n: int) {
    && c & 0xFFF8 == 0 && (c & 4 != 0 <==> n == 1 || n == 3 || n == 5 || n == 7)
    && (c & 2 != 0 <==> n == 2 || n == 3 || n == 6 || n == 7) && (c & 1 != 0 <==> 4 <= n)
  }

  lemma ColorBitsAre(n: int)
    requires 0 <= n <= 7
    ensures IsColor(ColorBits(n), n) && ColorBits(n) & 0xFFF8 == 0
  {
  }

  lemma ForegroundBits(a: Attribute, c: Attribute)
    requires c & 0xFFF8 == 0
    ensures var b := (a & !FOREGROUND) | c;
            b & 4 == c & 4 && b & 2 == c & 2 && b & 1 == c & 1 && b & 0xFFF8 == a & 0xFFF8
  {
  }

  lemma BackgroundBits(a: Attribute, c: Attribute)
    requires c & 0xFFF8 == 0
    ensures var b := (a & !BACKGROUND) | (c << 4);
            && (b & 0x40 != 0 <==> c & 4 != 0) && (b & 0x20 != 0 <==> c & 2 != 0) && (b & 0x10 != 0 <==> c & 1 != 0)
            && b & 0xFF8F == a & 0xFF8F
  {
  }

  /** ESC [ p1 ; ... ; pk m: the attributes on the way, one parameter at a time, from the old one to the
      one that the terminal and the console end with. */
  lemma AttributeIsPainted(t: Term, marked: bool, args: seq<Argument>) returns (way: seq<Attribute>)
    requires Idle(t) && args != [] && |args| <= 16
    ensures |way| == |args| + 1 && way[0] == t.d.attr
    ensures forall k | 0 <= k < |args| :: Painted(way[k], way[k + 1], args[k].Value())
    ensures EndsWith(t, t.Run(Sequence(marked, args, 'm' as int)),
                     t.d.(attr := way[|args|], screen := t.d.screen.(attr := way[|args|])))
  {
    hide Term.Run, Painted, Renditions, Idle, Argument.Value, Sequence;
    var u := FunctionBegins(t, marked, args, 'm' as int);
    var v := u.CsiFunction('m' as int);
    assert v == u.Show(u.d.SetAttribute(Renditions(u.d.attr, u.FirstParams())));
    assert |u.FirstParams()| == |args| && forall k | 0 <= k < |args| :: u.FirstParams()[k] == args[k].Value();
    hide Term.CsiFunction, Term.FirstParams;
    way := Way(t.d.attr, u.FirstParams());
  }

  lemma {:induction false} Way(a: Attribute, ps: seq<int>) returns (way: seq<Attribute>)
    ensures |way| == |ps| + 1 && way[0] == a && way[|ps|] == Renditions(a, ps)
    ensures forall k | 0 <= k < |ps| :: Painted(way[k], way[k + 1], ps[k])
    decreases |ps|
  {
    way := [a];
    if ps != [] {
      var n := |ps| - 1;
      way := Way(a, ps[..n]);
      RenditionPaints(way[n], ps[n]);
      hide Painted, Rendition;
      way := way + [Rendition(way[n], ps[n])];
    }
  }

  // ----- functions without effect -----

  lemma NothingHappens(t: Term, marked: bool, args: seq<Argument>, final: Byte)
    requires Idle(t) && args != []
    requires final in {'c' as int, 'g' as int, 'n' as int, 'q' as int, 'x' as int, 'y' as int}
    ensures EndsWith(t, t.Run(Sequence(marked, args, final)), t.d)
  {
    var u := FunctionBegins(t, marked, args, final);
    hide Term.Run, Sequence, Argument.Value;
  }

  // ----- escape sequences -----

  lemma EscapeBegins(t: Term, b: Byte)
    requires Idle(t) && !IsControl(b)
    ensures t.Run([ESC, b]) == t.Enter(Escape).EscapeByte(b)
  {
    assert [ESC, b] == [ESC] + [b];
    RunConcat(t, [ESC], [b]);
    RunOne(t, ESC);
    Buffering.EmitNothing(t.d);
    assert t.Step(ESC) == t.Enter(Escape);
    RunOne(t.Enter(Escape), b);
    hide Term.Run, EmitAll, Idle;
  }

  /** ESC 7 (or s) keeps the cursor, and ESC 8 (or u) goes back to it. */
  lemma CursorIsKept(t: Term, save: Byte, restore: Byte)
    requires Idle(t) && save in {'7' as int, 's' as int} && restore in {'8' as int, 'u' as int}
    ensures t.Run([ESC, save]) == t.(state := Normal, d := t.d.(savedX := t.d.x, savedY := t.d.y))
    ensures t.Run([ESC, restore]) == t.(state := Normal, d := CursorAt(t.d, t.d.savedX, t.d.savedY))
  {
    EscapeBegins(t, save);
    EscapeBegins(t, restore);
    hide Term.Run, Idle;
  }

  /** So wherever the cursor is sent in between, it comes back. */
  lemma SavedCursorComesBack(t: Term, args: seq<Argument>)
    requires Idle(t) && args != [] && OneBased(args, 0) >= 1 && OneBased(args, 1) >= 1
    ensures var d := t.Run([ESC, '7' as int] + (Sequence(false, args, 'H' as int) + [ESC, '8' as int])).d;
            d == CursorAt(t.d.(savedX := t.d.x, savedY := t.d.y), t.d.x, t.d.y)
  {
    var save: seq<Byte>, go, back: seq<Byte> := [ESC, '7' as int], Sequence(false, args, 'H' as int), [ESC, '8' as int];
    hide *;
    var u := t.Run(save);
    var v := u.Run(go);
    RunConcat(t, save, go + back);
    RunConcat(u, go, back);
    CursorIsKept(t, '7' as int, '8' as int);
    StaysIdle(t, u);
    PositionGoesThere(u, false, args, 'H' as int);
    PlacedIsIdle(u, v, OneBased(args, 0), OneBased(args, 1));
    CursorIsKept(v, '7' as int, '8' as int);
    BackAgain(u.d, v.d.x, v.d.y);
  }

  lemma BackAgain(d: Display, x: int, y: int)
    ensures var e := CursorAt(d, x, y); CursorAt(e, e.savedX, e.savedY) == CursorAt(d, d.savedX, d.savedY)
  {
  }

  lemma PlacedIsIdle(t: Term, v: Term, row: int, col: int)
    requires Idle(t) && row >= 1 && col >= 1
    requires var rows := if t.d.origin then t.d.bottom - t.d.top + 1 else t.d.h;
             EndsWith(t, v, CursorAt(t.d, (if col <= t.d.w then col else t.d.w) - 1, (if row <= rows then row else rows) - 1))
    ensures Idle(v) && v.d == CursorAt(t.d, v.d.x, v.d.y) && v == t.(d := v.d, state := Normal, params := v.params,
      count := v.count, start := v.start, isPrivate := v.isPrivate, utf8 := v.utf8, utf8Size := v.utf8Size)
  {
  }

  lemma StaysIdle(t: Term, u: Term)
    requires Idle(t) && u == t.(state := Normal, d := t.d.(savedX := t.d.x, savedY := t.d.y))
    ensures Idle(u)
  {
  }

  /** ESC D and ESC E feed a line, E from column 0, and ESC M feeds one in reverse. */
  lemma LinesAreFed(t: Term)
    requires Idle(t)
    ensures var u := t.Run([ESC, 'D' as int]); u == t.(state := Normal, d := u.d) && Scrolling.FedLine(t.d, u.d)
    ensures var u := t.Run([ESC, 'E' as int]); u == t.(state := Normal, d := u.d) && Scrolling.FedLine(t.d.(x := 0), u.d)
    ensures var u := t.Run([ESC, 'M' as int]); u == t.(state := Normal, d := u.d) && Scrolling.ReversedLine(t.d, u.d)
  {
    EscapeBegins(t, 'D' as int);
    EscapeBegins(t, 'E' as int);
    EscapeBegins(t, 'M' as int);
    Scrolling.LinefeedMoves(t.d, false);
    Scrolling.LinefeedMoves(t.d, true);
    Scrolling.ReverseLinefeedMoves(t.d);
    hide Term.Run, Idle, Display.Linefeed, Display.ReverseLinefeed, Scrolling.FedLine, Scrolling.ReversedLine;
  }

  /** The keypad modes, the tab stop and the identification do nothing, nor do the five functions of ESC #. */
  lemma EscapeWithoutEffect(t: Term, b: Byte, c: Byte)
    requires Idle(t) && b in {'=' as int, '>' as int, 'H' as int, 'Z' as int}
    requires c in {'3' as int, '4' as int, '5' as int, '6' as int, '8' as int}
    ensures t.Run([ESC, b]) == t.Enter(Normal)
    ensures EndsWith(t, t.Run([ESC, '#' as int, c]), t.d)
  {
    EscapeBegins(t, b);
    ThreeBytes(t, '#' as int, c);
    var v := t.Enter(Escape).Collect(DecPrivate);
    assert v.Step(c) == v.Enter(Normal);
    hide Term.Run, Idle, Term.Step;
  }

  /** `u` is `t` as it starts on a console `s` with a window of its last `h` rows: the first modes, the
      cursor home, no margins, a blank window, and the scrollback as it was. */
  ghost predicate IsInitial(t: Term, u: Term, s: Screen, w: int, h: int) {
    var e := u.d;
    && 0 <= h <= |s.rows|
    && u == t.(state := Normal, useG1 := false, g0 := Ascii, g1 := SpecialGraphics, d := e, out := [],
               modes := Modes(true, false, true, true, false, false, true, false, true))
    && e == Display(e.screen, w, h, 0, 0, 0, 0, 0, h - 1, 7, false, true)
    && e.screen == s.(rows := e.screen.rows, cx := 0, cy := |s.rows| - h, attr := 7)
    && e.screen.rows == s.rows[..|s.rows| - h] + TerminalLog.BlankRows(h, s.width, Cell(0x20, 7))
  }

  lemma ResetIsInitial(t: Term)
    requires Sized(t.d)
    ensures IsInitial(t, t.Reset(), t.d.screen, t.d.w, t.d.h)
  {
    TerminalLog.ResetRows(t.d);
    hide TerminalLog.BlankRows;
  }

  /** So is the terminal after ESC c, and, on the console that it finds, after a change of its size. */
  lemma TerminalStartsOver(t: Term, s: Screen, w: int, h: int)
    requires Idle(t) && s.Shaped() && 1 <= w <= s.width <= MAX_SHORT && 2 <= h <= |s.rows| <= MAX_SHORT
    ensures IsInitial(t, t.Run([ESC, 'c' as int]), t.d.screen, t.d.w, t.d.h)
    ensures IsInitial(t, t.Resize(s, w, h), s, w, h)
  {
    EscapeBegins(t, 'c' as int);
    assert t.Enter(Escape).EscapeByte('c' as int) == t.Enter(Escape).Reset();
    var u := t.Show(t.d.(screen := s, w := w, h := h));
    assert Sized(u.d) && Sized(t.d);
    ResetIsInitial(t.Enter(Escape));
    ResetIsInitial(u);
    assert t.Enter(Escape).Reset() == t.Reset() && t.Resize(s, w, h) == u.Reset();
    hide Term.Run, Idle, Term.Reset, TerminalLog.BlankRows;
  }

  /** A terminal opens on a console with the row that held the console's cursor as the window's first. */
  lemma OpensAtTheCursor(s: Screen, h: int)
    requires 1 <= h <= |s.rows| <= MAX_SHORT && 0 <= s.cy < |s.rows|
    ensures var e, k := Opened(s, h), s.cy - (|s.rows| - h);
            && e == s.(rows := e.rows) && |e.rows| == |s.rows|
            && forall r | 0 <= r < |s.rows| && 0 <= r + k < |s.rows| :: e.rows[r] == s.rows[r + k]
  {
    var e, k := Opened(s, h), s.cy - (|s.rows| - h);
    var blank := Cell(SPACE, DEFAULT_ATTRIBUTE);
    forall r | 0 <= r < |s.rows| && 0 <= r + k < |s.rows| ensures e.rows[r] == s.rows[r + k] {
      if k > 0 {
        assert e.rows[r] == MovedRow(s.rows, s.width, k, |s.rows| - 1, 0, blank, r);
      } else if k < 0 {
        assert e.rows[r] == MovedRow(s.rows, s.width, 0, |s.rows| - 1 + k, -k, blank, r);
      }
    }
  }

  /** The bytes that are listed after ESC, and after ESC #. */
  const ESCAPES: seq<Byte> := ['[' as int, '#' as int, '(' as int, ')' as int, '=' as int, '>' as int, '7' as int, '8' as int,
    'D' as int, 'E' as int, 'H' as int, 'M' as int, 'Z' as int, 'c' as int, 's' as int, 'u' as int]
  const DEC_FUNCTIONS: seq<Byte> := ['3' as int, '4' as int, '5' as int, '6' as int, '8' as int]

  lemma EscapesAreListed(b: Byte)
    ensures IsEscapeFunction(b) || b == '[' as int || b == '#' as int || b == '(' as int || b == ')' as int ==> b in ESCAPES
    ensures IsDecFunction(b) ==> b in DEC_FUNCTIONS
  {
    var e, f := ESCAPES, DEC_FUNCTIONS;
    assert e[0] == '[' as int && e[1] == '#' as int && e[2] == '(' as int && e[3] == ')' as int && e[4] == '=' as int;
    assert e[5] == '>' as int && e[6] == '7' as int && e[7] == '8' as int && e[8] == 'D' as int && e[9] == 'E' as int;
    assert e[10] == 'H' as int && e[11] == 'M' as int && e[12] == 'Z' as int && e[13] == 'c' as int && e[14] == 's' as int;
    assert e[15] == 'u' as int;
    assert f[0] == '3' as int && f[1] == '4' as int && f[2] == '5' as int && f[3] == '6' as int && f[4] == '8' as int;
  }

  /** An escape sequence that is not listed is shown. */
  lemma UnknownEscapeIsShown(t: Term, b: Byte)
    requires Idle(t) && !IsControl(b) && b !in ESCAPES
    ensures t.Run([ESC, b]) == t.(state := Normal, out := ['^' as int, '[' as int, b])
  {
    EscapesAreListed(b);
    EscapeBegins(t, b);
    hide Term.Run, Term.AddAll, ESCAPES, IsEscapeFunction;
    ThreeOrFour(t.Enter(Escape), ['^' as int, '[' as int, b]);
  }

  lemma ThreeOrFour(t: Term, s: seq<int>)
    requires Idle(t) && |s| <= 4
    ensures t.AddAll(s) == t.(out := s)
  {
    Buffering.AddAllBuffers(t, s);
    assert [] + s == s;
  }

  /** One of ESC # that is not listed is shown as well, and the parser stays where it is. */
  lemma UnknownDecIsShown(t: Term, b: Byte)
    requires Idle(t) && !IsControl(b) && b !in DEC_FUNCTIONS
    ensures SameButScratch(t.(state := DecPrivate, out := ['^' as int, '[' as int, '#' as int, b]),
                           t.Run([ESC, '#' as int, b]))
  {
    EscapesAreListed(b);
    hide DEC_FUNCTIONS, IsDecFunction, Term.AddAll, IsEscapeFunction, IsControl;
    ThreeBytes(t, '#' as int, b);
    var v := t.Enter(Escape).Collect(DecPrivate);
    assert v.Step(b) == v.AddAll(['^' as int, '[' as int, '#' as int, b]);
    hide Term.Step, Term.Run;
    ThreeOrFour(v, ['^' as int, '[' as int, '#' as int, b]);
  }

  /** ESC, one of the bytes that begin a longer sequence, and a third byte. */
  lemma ThreeBytes(t: Term, b: Byte, c: Byte)
    requires Idle(t) && b in {'#' as int, '(' as int, ')' as int}
    ensures var state := if b == '#' as int then DecPrivate else if b == '(' as int then SelectG0 else SelectG1;
            t.Run([ESC, b, c]) == t.Enter(Escape).Collect(state).Step(c)
  {
    EscapeBegins(t, b);
    assert [ESC, b, c] == [ESC, b] + [c];
    RunConcat(t, [ESC, b], [c]);
    RunOne(t.Run([ESC, b]), c);
    hide Term.Run, Idle, Term.Step;
  }

  // ----- character sets -----

  /** ESC ( and ESC ) choose the set of G0 and of G1: B is ASCII, 0 the graphics, and others leave it. */
  lemma SetIsChosen(t: Term, c: Byte)
    requires Idle(t) && !IsControl(c)
    ensures EndsWith(t.(g0 := if c == 'B' as int then Ascii else if c == '0' as int then SpecialGraphics else t.g0),
                     t.Run([ESC, '(' as int, c]), t.d)
    ensures EndsWith(t.(g1 := if c == 'B' as int then Ascii else if c == '0' as int then SpecialGraphics else t.g1),
                     t.Run([ESC, ')' as int, c]), t.d)
  {
    ThreeBytes(t, '(' as int, c);
    ThreeBytes(t, ')' as int, c);
    hide Term.Run, Idle;
  }

  /** What a byte of text shows as: with the graphics selected, 5F to 7E have glyphs of their own. */
  lemma TextIsShown(t: Term, b: Byte)
    requires Idle(t) && t.state == Normal && 0x20 <= b <= 0x7E
    ensures var graphics := if t.useG1 then t.g1 == SpecialGraphics else t.g0 == SpecialGraphics;
            t.Step(b) == t.(out := [if graphics && 0x5F <= b then t.glyphs.graphics(b) else b])
  {
    assert t.out + [t.Glyph(b)] == [t.Glyph(b)];
  }

  // ----- control bytes -----

  /** Control bytes act the same in every state of the parser and, but for ESC, do not change it. */
  lemma ControlActs(t: Term, b: Byte)
    requires Idle(t)
    ensures b in {0x00, 0x05, 0x07, 0x11, 0x13, 0x7F} ==> t.Step(b) == t
    ensures b == 0x08 ==> t.Step(b) == t.Show(if t.d.x == 0 then t.d
                                              else CursorAt(t.d, if t.d.x == t.d.w then t.d.w - 1 else t.d.x - 1, t.d.y))
    ensures b == 0x0D ==> t.Step(b) == t.Show(CursorAt(t.d, 0, t.d.y))
    ensures b == 0x0E ==> t.Step(b) == t.(useG1 := true)
    ensures b == 0x0F ==> t.Step(b) == t.(useG1 := false)
    ensures b == 0x1B ==> t.Step(b) == t.(state := Escape)
  {
    Buffering.EmitNothing(t.d);
    hide EmitAll;
  }

  /** LF, VT and FF feed a line, from column 0 with mode 20. */
  lemma LinefeedFeeds(t: Term, b: Byte)
    requires Idle(t) && 0x0A <= b <= 0x0C
    ensures var u := t.Step(b);
            u == t.Show(u.d) && Scrolling.FedLine(if t.modes.newLine then t.d.(x := 0) else t.d, u.d)
  {
    Buffering.EmitNothing(t.d);
    Scrolling.LinefeedMoves(t.d, t.modes.newLine);
    hide EmitAll, Display.Linefeed, Scrolling.FedLine;
  }

  /** Any other control byte shows its glyph. */
  lemma StrayShows(t: Term, b: Byte)
    requires Idle(t)
    requires 1 <= b <= 4 || b == 6 || b == 0x10 || b == 0x12 || 0x14 <= b <= 0x1A || 0x1C <= b <= 0x1F
    ensures t.Step(b) == t.(out := [t.glyphs.oem(b)])
  {
    Buffering.EmitNothing(t.d);
    hide EmitAll;
    assert t.out + [t.glyphs.oem(b)] == [t.glyphs.oem(b)];
  }

  // ----- tab -----

  /** `c` is where a tab from column `x` goes: the next multiple of 8, but not past the last column. */
  predicate IsTabStop(x: int, w: int, c: int) {
    && x <= c < w && (c == x <==> x == w - 1) && (c == w - 1 || c % 8 == 0)
    && forall b | x < b < c :: b % 8 != 0
  }

  lemma TabStopIs(x: int, w: int)
    requires 0 <= x < w
    ensures IsTabStop(x, w, TabStop(x, w))
  {
  }

  /** `e` is `d` with the cells from the cursor up to column `c` blank and the cursor there. In origin mode
      the cursor may be in a row that the buffer does not have. */
  ghost predicate Spaced(d: Display, e: Display, c: int) {
    && e == d.(x := c, screen := e.screen) && e.screen == d.screen.(rows := e.screen.rows, cx := c)
    && 0 <= d.x <= c <= d.screen.width && 0 <= d.screen.cy
    && e.screen.rows ==
       if d.screen.cy >= |d.screen.rows| then d.screen.rows
       else
         var row := d.screen.rows[d.screen.cy];
         if |row| < c then d.screen.rows
         else d.screen.rows[d.screen.cy := row[..d.x] + BlankRow(c - d.x, Cell(0x20, d.screen.attr)) + row[c..]]
  }

  lemma {:induction false} NothingIsWritten(s: Screen, chars: seq<int>)
    requires s.cy >= |s.rows| && 0 <= s.cx && s.cx + |chars| < s.width
    ensures s.Write(chars) == s.(cx := s.cx + |chars|)
    decreases |chars|
  {
    if chars != [] {
      NothingIsWritten(s.Put(chars[0]), chars[1..]);
    }
  }

  lemma SpacesAreEmitted(d: Display, c: int)
    requires Good(d) && d.x <= c < d.w
    ensures var e := EmitAll(d, Spaces(c - d.x)); Spaced(d, e, c) && e.x == c
  {
    var s := Spaces(c - d.x);
    assert |s| == c - d.x;
    Draining.FittingCharacters(d, s);
    hide EmitAll, Spaces;
    if d.screen.cy < |d.screen.rows| {
      TerminalLog.WriteFits(d.screen, s);
      SpacesAreBlank(c - d.x, d.screen.attr);
    } else {
      NothingIsWritten(d.screen, s);
    }
    hide Screen.Write;
  }

  lemma SpacesAreBlank(n: nat, a: Attribute)
    ensures TerminalLog.Cells(Spaces(n), a) == BlankRow(n, Cell(0x20, a))
  {
  }

  lemma TabBegins(t: Display, d: Display)
    requires Good(t) && (t.x < t.w || t.wrap) && d == if t.x >= t.w then t.Linefeed(true) else t
    ensures Good(d) && d.w == t.w && 0 <= d.x < d.w
    ensures if t.x < t.w then d == t else Scrolling.FedLine(t.(x := 0), d)
  {
    LinefeedIsGood(t, true);
    Scrolling.LinefeedMoves(t, true);
    assert d.w == t.w;
    hide Display.Linefeed, InSync, Scrolling.FedLine;
  }

  lemma OneByteCall(t: Term, b: Byte)
    ensures t.Process([b]) == t.Step(b).Flush()
  {
    RunOne(t, b);
    hide Term.Run, Term.Step, Term.Flush;
  }

  lemma TabEnds(t: Term, d: Display)
    requires t.out == [] && t.cap >= 1 && (t.d.x < t.d.w || t.d.wrap)
    requires d == if t.d.x >= t.d.w then t.d.Linefeed(true) else t.d
    ensures t.Process([0x09]) == t.Show(EmitAll(d, Spaces(TabStop(d.x, d.w) - d.x)))
  {
    assert Buffering.HT == 0x09;
    hide *;
    OneByteCall(t, 0x09);
    Buffering.TabSteps(t);
    Drained(t, d, Spaces(TabStop(d.x, d.w) - d.x));
  }

  lemma Drained(t: Term, d: Display, s: seq<int>)
    requires t.out == [] && t.cap >= 1
    ensures t.Show(d).AddAll(s).Flush() == t.Show(EmitAll(d, s))
  {
    TerminalLog.AddAllThenFlush(t.Show(d), s);
    assert [] + s == s;
    hide EmitAll, Term.AddAll, Term.Flush;
  }

  /** A tab in any state of the parser: with a wrap pending it first feeds a line from column 0, or, with
      autowrap off, does nothing; then spaces lead to the stop. */
  lemma TabGoesToItsStop(t: Term) returns (d: Display)
    requires Idle(t) && Good(t.d)
    ensures t.d.x == t.d.w && !t.d.wrap ==> t.Process([0x09]) == t
    ensures t.d.x < t.d.w || t.d.wrap ==>
              var u := t.Process([0x09]);
              && (if t.d.x < t.d.w then d == t.d else Scrolling.FedLine(t.d.(x := 0), d))
              && u == t.Show(u.d) && IsTabStop(d.x, d.w, u.d.x) && Spaced(d, u.d, u.d.x)
  {
    if t.d.x == t.d.w && !t.d.wrap {
      d := t.d;
      RunOne(t, 0x09);
      Buffering.EmitNothing(t.d);
      hide EmitAll;
    } else {
      assert t.out == [] && t.cap >= 1 && (t.d.x >= t.d.w ==> t.d.x == t.d.w);
      hide *;
      d := if t.d.x >= t.d.w then t.d.Linefeed(true) else t.d;
      TabBegins(t.d, d);
      TabEnds(t, d);
      TabStopIs(d.x, d.w);
      TabStopLies(d.x, d.w);
      SpacesAreEmitted(d, TabStop(d.x, d.w));
    }
  }

  lemma TabStopLies(x: int, w: int)
    requires 0 <= x < w
    ensures x <= TabStop(x, w) < w
  {
  }
}
