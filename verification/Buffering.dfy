/** The output buffer is invisible: a terminal that collects up to 256 characters behaves as one that
    writes each character at once, and how the bytes are split over calls does not show, as long as no
    character-producing control byte (a tab, or one without a case of its own) comes in the middle of
    an escape or control sequence. Where one does, splitting shows. */
module Buffering {
  import opened Bytes
  import opened Displays
  import opened Terminal
  import opened Invariants
  import Draining

  const HT: Byte := 0x09

  /** The terminal with nothing left in the buffer and a buffer that never holds anything. */
  function Immediate(t: Term): Term {
    t.Flush().(cap := 1)
  }

  // ----- what a caller can tell from the bytes alone -----

  datatype Phase = Text | Esc | Csi(start: bool) | Dec | Charset

  function PhaseOf(t: Term): Phase {
    match t.state
    case Normal => Text
    case Utf8 => Text
    case Escape => Esc
    case CsiParam => Csi(t.start)
    case DecPrivate => Dec
    case SelectG0 => Charset
    case SelectG1 => Charset
  }

  function NextPhase(p: Phase, b: Byte): Phase {
    if IsControl(b) then (if b == ESC then Esc else p)
    else match p
      case Text => Text
      case Esc =>
        if b == '[' as int then Csi(true)
        else if b == '#' as int then Dec
        else if b == '(' as int || b == ')' as int then Charset
        else Text
      case Csi(start) =>
        if IsDigit(b) || b == ';' as int || (start && b == '?' as int) then Csi(false) else Text
      case Dec => if IsDecFunction(b) then Text else Dec
      case Charset => Text
  }

  predicate Clean(p: Phase, b: Byte) {
    (p.Esc? || p.Csi?) ==> b != HT && !IsStray(b)
  }

  predicate Polite(p: Phase, bytes: seq<Byte>)
    decreases |bytes|
  {
    bytes == [] || (Clean(p, bytes[0]) && Polite(NextPhase(p, bytes[0]), bytes[1..]))
  }

  /** No character waits in the buffer while an escape or control sequence is being read. */
  predicate Quiet(t: Term) {
    t.state.Escape? || t.state.CsiParam? ==> t.out == []
  }

  // ----- one byte -----

  lemma AddImmediate(t: Term, ch: int)
    requires t.cap >= 1
    ensures Immediate(t.Add(ch)) == Immediate(t).Add(ch)
    ensures var u := t.Add(ch); u == t.(d := u.d, out := u.out)
  {
    EmitAllConcat(t.d, t.out, [ch]);
    assert [] + [ch] == [ch];
  }

  lemma {:induction false} AddAllImmediate(t: Term, s: seq<int>)
    requires t.cap >= 1
    ensures Immediate(t.AddAll(s)) == Immediate(t).AddAll(s)
    ensures var u := t.AddAll(s); u == t.(d := u.d, out := u.out)
    decreases |s|
  {
    if s != [] {
      AddImmediate(t, s[0]);
      AddAllImmediate(t.Add(s[0]), s[1..]);
    }
  }

  /** The byte `b` takes the buffered terminal where it takes the immediate one. */
  ghost predicate Agrees(t: Term, u: Term, v: Term, b: Byte) {
    && Immediate(u) == v
    && Quiet(u)
    && u.cap == t.cap
    && PhaseOf(u) == NextPhase(PhaseOf(t), b)
  }

  lemma ControlAgrees(t: Term, b: Byte)
    requires t.cap >= 1 && IsControl(b) && Clean(PhaseOf(t), b)
    ensures Agrees(t, t.Step(b), Immediate(t).Step(b), b)
  {
    var u := t.Flush();
    hide EmitAll;
    EmitNothing(u.d);
    if b == HT {
      TabAgrees(u);
      hide Term.Tab;
    } else if IsStray(b) {
      AddImmediate(u, t.glyphs.oem(b));
      hide Term.Tab, Term.Add;
    } else {
      FormatAgrees(t, b);
    }
  }

  /** The control bytes that print nothing. */
  lemma FormatAgrees(t: Term, b: Byte)
    requires t.cap >= 1 && IsControl(b) && b != HT && !IsStray(b)
    ensures Agrees(t, t.Step(b), Immediate(t).Step(b), b)
  {
    var u := t.Flush();
    hide EmitAll, Term.Control, IsStray;
    FormatFrame(u, b);
    EmitNothing(u.d);
    EmitNothing(u.Control(b).d);
    assert Immediate(t).Step(b) == u.(cap := 1).Control(b);
  }

  lemma FormatFrame(u: Term, b: Byte)
    requires IsControl(b) && b != HT && !IsStray(b)
    ensures var v := u.Control(b);
            && u.(cap := 1).Control(b) == v.(cap := 1)
            && v == u.(d := v.d, useG1 := v.useG1, state := if b == ESC then Escape else u.state)
  {
    hide Display.Linefeed, Display.Backspace, Display.At;
  }

  lemma EmitNothing(d: Display)
    ensures EmitAll(d, []) == d
  {
  }

  lemma TabAgrees(t: Term)
    requires t.cap >= 1 && t.out == []
    ensures Immediate(t.Tab()) == t.(cap := 1).Tab()
    ensures var u := t.Tab(); u == t.(d := u.d, out := u.out)
  {
    hide EmitAll;
    EmitNothing(t.d);
    if t.d.x < t.d.w || t.d.wrap {
      var u := if t.d.x >= t.d.w then t.Show(t.d.Linefeed(true)) else t;
      EmitNothing(u.d);
      AddAllImmediate(u, Spaces(TabStop(u.d.x, u.d.w) - u.d.x));
    }
  }

  lemma TextAgrees(t: Term, b: Byte)
    requires t.cap >= 1 && !IsControl(b) && t.state.Normal?
    ensures Agrees(t, t.Step(b), Immediate(t).Step(b), b)
  {
    hide EmitAll, Term.Add;
    assert Immediate(t).Glyph(b) == t.Glyph(b);
    hide Term.Glyph;
    if b >= 0x80 {
      AddImmediate(t, t.glyphs.oem(b));
    } else {
      AddImmediate(t, t.Glyph(b));
    }
  }

  lemma Utf8Agrees(t: Term, b: Byte)
    requires t.cap >= 1 && !IsControl(b) && t.state.Utf8?
    ensures Agrees(t, t.Step(b), Immediate(t).Step(b), b)
  {
    hide EmitAll, Term.Add, Term.AddAll, DecodeUtf8;
    if b / 0x40 != 2 {
      assert Immediate(t).OemGlyphs(t.utf8) == t.OemGlyphs(t.utf8);
      hide Term.OemGlyphs;
      AddAllImmediate(t, t.OemGlyphs(t.utf8) + [if b >= 0x80 then t.glyphs.oem(b) else b]);
    } else {
      var u := t.(utf8 := t.utf8 + [b]);
      if |u.utf8| == t.utf8Size {
        AddImmediate(u, DecodeUtf8(u.utf8));
      }
    }
  }

  lemma EscapeAgrees(t: Term, b: Byte)
    requires t.cap >= 1 && !IsControl(b) && t.state.Escape? && t.out == []
    ensures Agrees(t, t.Step(b), Immediate(t).Step(b), b)
  {
    if IsEscapeFunction(b) {
      EscapeFunctionAgrees(t, b);
    } else if b == '[' as int || b == '#' as int || b == '(' as int || b == ')' as int {
      EmitNothing(t.d);
      hide EmitAll;
    } else {
      UnlistedEscapeAgrees(t, b);
    }
    hide *;
  }

  lemma UnlistedEscapeAgrees(t: Term, b: Byte)
    requires t.cap >= 1 && !IsControl(b) && t.state.Escape? && t.out == []
    requires !IsEscapeFunction(b) && b != '[' as int && b != '#' as int && b != '(' as int && b != ')' as int
    ensures Agrees(t, t.Step(b), Immediate(t).Step(b), b)
  {
    hide EmitAll, Term.AddAll, Term.EscapeFunction, IsEscapeFunction;
    EmitNothing(t.d);
    AddAllImmediate(t, ['^' as int, '[' as int, b]);
  }

  lemma EscapeFunctionAgrees(t: Term, b: Byte)
    requires t.cap >= 1 && t.state.Escape? && t.out == [] && IsEscapeFunction(b) && !IsControl(b)
    ensures Agrees(t, t.Step(b), Immediate(t).Step(b), b)
  {
    hide EmitAll, Term.AddAll, Term.EscapeFunction;
    var u, im := t.EscapeFunction(b), t.(cap := 1);
    assert t.Step(b) == u.Enter(Normal) && im.Step(b) == im.EscapeFunction(b).Enter(Normal);
    assert NextPhase(PhaseOf(t), b) == Text;
    EscapeFunctionFrame(t, b);
    hide Term.Step, IsEscapeFunction, IsControl, NextPhase;
    EmitNothing(t.d);
    EmitNothing(u.d);
  }

  lemma ResetFrame(t: Term)
    ensures t.(cap := 1).Reset() == t.Reset().(cap := 1)
    ensures t.Reset().cap == t.cap && t.Reset().out == []
  {
    hide Display.Reset;
  }

  lemma EscapeFunctionFrame(t: Term, b: Byte)
    ensures t.(cap := 1).EscapeFunction(b) == t.EscapeFunction(b).(cap := 1)
    ensures t.EscapeFunction(b).cap == t.cap && (t.out == [] ==> t.EscapeFunction(b).out == [])
  {
    hide EscapeAction, Term.Reset;
    ResetFrame(t);
  }

  lemma {:induction false} ResetModesFrame(t: Term, k: nat)
    requires k <= MAX_PARAMETERS
    ensures var u := t.ResetFirstModes(k); u == t.(d := u.d, modes := u.modes)
    ensures t.(cap := 1).ResetFirstModes(k) == t.ResetFirstModes(k).(cap := 1)
  {
    if k != 0 {
      ResetModesFrame(t, k - 1);
    }
  }

  /** The capacity plays no part in `u` as computed from `t`, nor do parser state and buffer change. */
  ghost predicate Framed(t: Term, u: Term, v: Term) {
    u.(cap := 1) == v && u == t.(d := u.d, modes := u.modes, params := u.params)
  }

  lemma PositionFrame(t: Term)
    ensures Framed(t, t.Position(), t.(cap := 1).Position())
  {
    hide Display.At, Short;
  }

  lemma MarginsFrame(t: Term)
    ensures Framed(t, t.SetMargins(), t.(cap := 1).SetMargins())
  {
    hide Display.At, Short;
  }

  lemma ModeFrame(t: Term)
    ensures Framed(t, t.SetMode(), t.(cap := 1).SetMode())
  {
    hide Display.At, SwitchMode;
  }

  lemma MotionFrame(t: Term, b: Byte)
    requires 'A' as int <= b <= 'D' as int
    ensures Framed(t, t.CsiFunction(b), t.(cap := 1).CsiFunction(b))
  {
    hide Motion;
    assert t.(cap := 1).DefaultOne() == t.DefaultOne().(cap := 1);
  }

  lemma CsiFunctionFrame(t: Term, b: Byte)
    ensures Framed(t, t.CsiFunction(b), t.(cap := 1).CsiFunction(b))
  {
    hide Term.Position, Term.SetMargins, Term.SetMode, Term.ResetFirstModes, Term.DefaultOne, Display.EraseDisplay,
      Display.EraseLine, Display.SetAttribute, Renditions, Motion;
    if 'A' as int <= b <= 'D' as int {
      MotionFrame(t, b);
    } else if b == 'H' as int || b == 'f' as int {
      PositionFrame(t);
    } else if b == 'h' as int {
      ModeFrame(t);
    } else if b == 'l' as int {
      ResetModesFrame(t, if t.count <= MAX_PARAMETERS then t.count else MAX_PARAMETERS);
    } else if b == 'r' as int {
      MarginsFrame(t);
    }
  }

  lemma DispatchAgrees(t: Term, b: Byte)
    requires t.cap >= 1 && t.out == []
    ensures Immediate(t.Dispatch(b)) == t.(cap := 1).Dispatch(b)
    ensures t.Dispatch(b).state == Normal && t.Dispatch(b).cap == t.cap
  {
    hide EmitAll, Term.CsiFunction;
    var u := t.(count := if t.count < MAX_PARAMETERS then t.count + 1 else t.count);
    EmitNothing(u.d);
    if IsCsiFunction(b) {
      CsiFunctionFrame(u, b);
      EmitNothing(u.CsiFunction(b).d);
    } else {
      AddAllImmediate(u, CsiText(u.FirstParams(), b));
    }
  }

  lemma CsiAgrees(t: Term, b: Byte)
    requires t.cap >= 1 && !IsControl(b) && t.state.CsiParam? && t.out == []
    ensures Agrees(t, t.Step(b), Immediate(t).Step(b), b)
  {
    hide EmitAll, Term.Dispatch;
    EmitNothing(t.d);
    DispatchAgrees(t.(start := false, isPrivate := if t.start then false else t.isPrivate), b);
  }

  lemma DecAgrees(t: Term, b: Byte)
    requires t.cap >= 1 && !IsControl(b) && t.state.DecPrivate?
    ensures Agrees(t, t.Step(b), Immediate(t).Step(b), b)
  {
    AddAllImmediate(t, ['^' as int, '[' as int, '#' as int, b]);
  }

  lemma StepAgrees(t: Term, b: Byte)
    requires t.cap >= 1 && Quiet(t) && Clean(PhaseOf(t), b)
    ensures Agrees(t, t.Step(b), Immediate(t).Step(b), b)
  {
    hide Agrees;
    if IsControl(b) {
      ControlAgrees(t, b);
    } else {
      match t.state
      case Normal => TextAgrees(t, b);
      case Utf8 => Utf8Agrees(t, b);
      case Escape => EscapeAgrees(t, b);
      case CsiParam => CsiAgrees(t, b);
      case DecPrivate => DecAgrees(t, b);
      case SelectG0 => DesignateAgrees(t, b);
      case SelectG1 => DesignateAgrees(t, b);
    }
  }

  lemma DesignateAgrees(t: Term, b: Byte)
    requires !IsControl(b) && (t.state.SelectG0? || t.state.SelectG1?)
    ensures Agrees(t, t.Step(b), Immediate(t).Step(b), b)
  {
  }

  // ----- any run -----

  /** The buffered terminal, once drained, is the write-immediately terminal. */
  lemma {:induction false} BufferedRefinesImmediate(t: Term, bytes: seq<Byte>)
    requires t.cap >= 1 && Quiet(t) && Polite(PhaseOf(t), bytes)
    ensures Immediate(t.Run(bytes)) == Immediate(t).Run(bytes)
    ensures Quiet(t.Run(bytes)) && t.Run(bytes).cap == t.cap
    decreases |bytes|
  {
    if bytes != [] {
      StepAgrees(t, bytes[0]);
      hide Immediate, Term.Step;
      BufferedRefinesImmediate(t.Step(bytes[0]), bytes[1..]);
    }
  }

  function Concat(chunks: seq<seq<Byte>>): seq<Byte> {
    if chunks == [] then [] else chunks[0] + Concat(chunks[1..])
  }

  function ProcessAll(t: Term, chunks: seq<seq<Byte>>): Term
    decreases |chunks|
  {
    if chunks == [] then t else ProcessAll(t.Process(chunks[0]), chunks[1..])
  }

  lemma {:induction false} PoliteSplits(p: Phase, a: seq<Byte>, b: seq<Byte>, t: Term)
    requires Polite(p, a + b) && p == PhaseOf(t) && t.cap >= 1 && Quiet(t)
    ensures Polite(p, a) && Polite(PhaseOf(t.Run(a)), b)
    decreases |a|
  {
    if a == [] {
      assert a + b == b;
    } else {
      assert (a + b)[0] == a[0] && (a + b)[1..] == a[1..] + b;
      StepAgrees(t, a[0]);
      hide Term.Step;
      PoliteSplits(NextPhase(p, a[0]), a[1..], b, t.Step(a[0]));
    }
  }

  /** However a polite byte stream is cut into calls, the terminal ends in the same state. */
  lemma {:induction false} ChunkingDoesNotShow(t: Term, chunks: seq<seq<Byte>>)
    requires t.cap >= 1 && t.out == [] && Polite(PhaseOf(t), Concat(chunks))
    ensures ProcessAll(t, chunks) == t.Process(Concat(chunks))
    decreases |chunks|
  {
    if chunks != [] {
      var a, b := chunks[0], Concat(chunks[1..]);
      PoliteSplits(PhaseOf(t), a, b, t);
      SplittingDoesNotShow(t, a, b);
      BufferedRefinesImmediate(t, a);
      ChunkingDoesNotShow(t.Process(a), chunks[1..]);
    }
  }

  lemma SplittingDoesNotShow(t: Term, a: seq<Byte>, b: seq<Byte>)
    requires t.cap >= 1 && t.out == [] && Polite(PhaseOf(t), a + b)
    ensures t.Process(a + b) == t.Process(a).Process(b)
  {
    PoliteSplits(PhaseOf(t), a, b, t);
    BufferedRefinesImmediate(t, a);
    var u, v := t.Run(a), t.Process(a);
    BufferedRefinesImmediate(u, b);
    BufferedRefinesImmediate(v, b);
    RunConcat(t, a, b);
    hide Term.Run;
    assert Immediate(v) == Immediate(u);
  }

  // ----- where the buffer does show -----

  /** Inside a sequence a byte leaves characters waiting: an unlisted control byte its glyph, and a tab
      its spaces, unless the cursor is at the last column or stays at a pending wrap. */
  predicate Waits(t: Term, b: Byte) {
    && (t.state.Escape? || t.state.CsiParam?)
    && (IsStray(b) || (b == HT && (t.d.x < t.d.w - 1 || (t.d.x == t.d.w && t.d.wrap && t.d.w > 1))))
  }

  /** In a control sequence "cursor position" goes to a column that text leaves. It always does but for
      one: a second parameter that has overflowed to the SHORT of a full line, where text stays. */
  predicate HasColumn(t: Term) {
    t.state.CsiParam? && t.count >= 1 && t.params[1] < 0 && Short(t.params[1]) == t.d.w ==> t.d.wrap && t.d.w > 1
  }

  /** Between calls and wherever the terminal is, a byte can be followed by another call boundary without
      consequences for any next byte exactly when it leaves no character waiting inside a sequence. */
  lemma SplitSafeExactlyWhenNothingWaits(t: Term, b: Byte)
    requires SaneTerm(t) && HasColumn(t) && t.cap == OUTPUT_BUFFER_SIZE && t.out == []
    ensures (forall c: Byte :: t.Process([b, c]) == t.Process([b]).Process([c])) <==> !Waits(t, b)
  {
    if Waits(t, b) {
      WaitingCharacterShows(t, b);
    } else {
      forall c: Byte ensures t.Process([b, c]) == t.Process([b]).Process([c]) {
        SafeByte(t, b, c);
      }
    }
  }

  lemma SafeByte(t: Term, b: Byte, c: Byte)
    requires SaneTerm(t) && t.out == [] && !Waits(t, b)
    ensures t.Process([b, c]) == t.Process([b]).Process([c])
  {
    if b == HT && (t.state.Escape? || t.state.CsiParam?) {
      StillTab(t);
      hide *;
      NothingWaits(t, b, c);
    } else {
      StepAgrees(t, b);
      hide Term.Step, Term.Process;
      if t.Step(b).out == [] {
        NothingWaits(t, b, c);
      } else {
        assert [b, c] == [b] + [c];
        assert Polite(NextPhase(PhaseOf(t), b), [c]) by {
          assert [c][1..] == [];
        }
        assert Polite(PhaseOf(t), [b] + [c]) by {
          assert ([b] + [c])[1..] == [c];
        }
        hide *;
        SplittingDoesNotShow(t, [b], [c]);
      }
    }
  }

  /** A tab that does not move leaves nothing. */
  lemma StillTab(t: Term)
    requires SaneTerm(t) && t.out == [] && (t.state.Escape? || t.state.CsiParam?) && !Waits(t, HT)
    ensures t.Step(HT).out == []
  {
    EmitNothing(t.d);
    assert t.d.Linefeed(true).x == 0 && t.d.Linefeed(true).w == t.d.w;
    hide EmitAll, Display.Linefeed;
  }

  lemma NothingWaits(t: Term, b: Byte, c: Byte)
    requires t.Step(b).out == []
    ensures t.Process([b, c]) == t.Process([b]).Process([c])
  {
    hide Term.Step, Term.Run;
    assert [b, c] == [b] + [c];
    RunConcat(t, [b], [c]);
    RunOne(t, b);
  }

  lemma {:induction false} AddAllBuffers(t: Term, s: seq<int>)
    requires |t.out| + |s| < t.cap
    ensures t.AddAll(s) == t.(out := t.out + s)
    decreases |s|
  {
    if s == [] {
      assert t.out + s == t.out;
    } else {
      AddAllBuffers(t.Add(s[0]), s[1..]);
      assert t.out + [s[0]] + s[1..] == t.out + s;
    }
  }

  /** What waits after such a byte, and the display it waits for. */
  lemma WhatWaits(t: Term, b: Byte) returns (d: Display, waiting: seq<int>)
    requires SaneTerm(t) && t.cap == OUTPUT_BUFFER_SIZE && t.out == [] && Waits(t, b)
    ensures t.Step(b) == t.(d := d, out := waiting)
    ensures Good(d) && d.w == t.d.w && d.wrap == t.d.wrap && waiting != [] && (|waiting| < d.w || |waiting| == 1)
  {
    if IsStray(b) {
      d, waiting := t.d, [t.glyphs.oem(b)];
      StrayWaits(t, b);
    } else {
      d := if t.d.x >= t.d.w then t.d.Linefeed(true) else t.d;
      waiting := Spaces(TabStop(d.x, d.w) - d.x);
      TabWaits(t, d);
    }
    hide *;
  }

  lemma StrayWaits(t: Term, b: Byte)
    requires SaneTerm(t) && t.cap == OUTPUT_BUFFER_SIZE && t.out == [] && IsStray(b)
    ensures t.Step(b) == t.(out := [t.glyphs.oem(b)])
  {
    EmitNothing(t.d);
    hide EmitAll, Good;
    assert [] + [t.glyphs.oem(b)] == [t.glyphs.oem(b)];
  }

  lemma TabSteps(t: Term)
    requires t.out == [] && (t.d.x < t.d.w || t.d.wrap)
    ensures var d := if t.d.x >= t.d.w then t.d.Linefeed(true) else t.d;
            t.Step(HT) == t.Show(d).AddAll(Spaces(TabStop(d.x, d.w) - d.x))
  {
    EmitNothing(t.d);
    hide EmitAll, Display.Linefeed, Spaces, TabStop, Term.AddAll;
  }

  /** Where the spaces of a tab begin. */
  lemma TabStarts(t: Display, d: Display)
    requires Good(t) && (t.x < t.w - 1 || (t.x == t.w && t.wrap && t.w > 1))
    requires d == if t.x >= t.w then t.Linefeed(true) else t
    ensures Good(d) && d.w == t.w && d.wrap == t.wrap && 0 <= d.x < d.w - 1
  {
    assert d.w == t.w && d.wrap == t.wrap && (t.x >= t.w ==> d.x == 0);
    hide Display.Linefeed, InSync;
    LinefeedIsGood(t, true);
  }

  lemma TabWaits(t: Term, d: Display)
    requires SaneTerm(t) && t.cap == OUTPUT_BUFFER_SIZE && t.out == []
    requires t.d.x < t.d.w - 1 || (t.d.x == t.d.w && t.d.wrap && t.d.w > 1)
    requires d == if t.d.x >= t.d.w then t.d.Linefeed(true) else t.d
    ensures var waiting := Spaces(TabStop(d.x, d.w) - d.x);
            t.Step(HT) == t.(d := d, out := waiting) && Good(d) && d.w == t.d.w && d.wrap == t.d.wrap && 1 <= |waiting| < d.w
  {
    TabSteps(t);
    TabStarts(t.d, d);
    var waiting := Spaces(TabStop(d.x, d.w) - d.x);
    assert 1 <= |waiting| <= 8;
    hide Spaces, TabStop, Term.Step, Good, Display.Linefeed;
    AddAllBuffers(t.Show(d), waiting);
    assert [] + waiting == waiting;
  }

  /** Printing less than a line, or one character, never ends in the column it started in, except from a
      full line that text stays in. */
  lemma LeavesItsColumn(d: Display, s: seq<int>)
    requires 1 <= d.w <= MAX_SHORT && -0x8000 <= d.x && (d.x == d.w ==> d.wrap && d.w > 1)
    requires s != [] && (|s| < d.w || |s| == 1)
    ensures EmitAll(d, s).x != d.x
  {
    if d.x + |s| <= d.w {
      Draining.FittingCharacters(d, s);
    } else if d.x >= d.w {
      FromAWrap(d, s);
    } else {
      var first, rest := s[..d.w - d.x], s[d.w - d.x..];
      assert first + rest == s;
      EmitAllConcat(d, first, rest);
      Draining.FittingCharacters(d, first);
      hide EmitAll;
      FromAWrap(EmitAll(d, first), rest);
    }
  }

  /** From the right edge or beyond, text starts the next line, or stays in the last column. */
  lemma FromAWrap(d: Display, s: seq<int>)
    requires 1 <= d.w <= MAX_SHORT && d.x >= d.w && s != [] && |s| <= d.w
    ensures EmitAll(d, s).x == if d.wrap then |s| else d.w
  {
    if d.wrap {
      Draining.WrapComesFirst(d, s);
      Draining.FittingCharacters(d.Linefeed(true), s);
    } else {
      Draining.OnlyTheLastStays(d, s);
    }
    hide EmitAll;
  }

  /** With characters waiting, "next line" or "cursor position" ends in another column if it comes in
      the same call than if it comes in the next one. */
  lemma WaitingCharacterShows(t: Term, b: Byte)
    requires SaneTerm(t) && HasColumn(t) && t.cap == OUTPUT_BUFFER_SIZE && t.out == [] && Waits(t, b)
    ensures var c: Byte := if t.state.Escape? then 'E' as int else 'H' as int;
            t.Process([b, c]).d.x != t.Process([b]).Process([c]).d.x
  {
    var c: Byte := if t.state.Escape? then 'E' as int else 'H' as int;
    var d, waiting := WhatWaits(t, b);
    var u := t.(d := d, out := waiting);
    TwoBytes(t, u, b, c);
    if t.state.Escape? {
      NextLineShows(u);
    } else {
      PositionShows(u);
    }
    hide *;
  }

  lemma TwoBytes(t: Term, u: Term, b: Byte, c: Byte)
    requires t.Step(b) == u
    ensures t.Process([b, c]) == u.Step(c).Flush() && t.Process([b]).Process([c]) == u.Flush().Step(c).Flush()
  {
    hide Term.Step;
    assert [b, c] == [b] + [c];
    RunConcat(t, [b], [c]);
    RunOne(t, b);
    RunOne(u, c);
    RunOne(u.Flush(), c);
  }

  lemma NextLineShows(u: Term)
    requires u.state.Escape? && Good(u.d) && u.out != [] && (|u.out| < u.d.w || |u.out| == 1)
    ensures u.Step('E' as int).Flush().d.x == |u.out| && u.Flush().Step('E' as int).Flush().d.x == 0
  {
    var v := u.Flush();
    EmitAllIsGood(u.d, u.out);
    LinefeedIsGood(u.d, true);
    LinefeedIsGood(v.d, true);
    Draining.FittingCharacters(u.d.Linefeed(true), u.out);
    EmitNothing(v.d.Linefeed(true));
    hide EmitAll, Display.Linefeed;
  }

  lemma PositionShows(u: Term)
    requires u.state.CsiParam? && Good(u.d) && u.count <= MAX_PARAMETERS && HasColumn(u)
    requires u.out != [] && (|u.out| < u.d.w || |u.out| == 1)
    ensures u.Step('H' as int).Flush().d.x != u.Flush().Step('H' as int).Flush().d.x
  {
    var v := u.Flush();
    EmitAllFrame(u.d, u.out);
    PositionStep(u);
    PositionStep(v);
    var e := u.Step('H' as int).d;
    var f := v.Step('H' as int).d;
    assert e.x == f.x;
    EmitNothing(f);
    LeavesItsColumn(e, u.out);
    hide EmitAll, Term.Step;
  }

  /** Which column "cursor position" goes to depends on the parameters and the width. */
  lemma PositionStep(u: Term)
    requires u.state.CsiParam? && Sized(u.d) && u.count <= MAX_PARAMETERS && HasColumn(u)
    ensures var v := u.Step('H' as int);
            && v.out == u.out && v.d.w == u.d.w && v.d.wrap == u.d.wrap && (v.d.x == v.d.w ==> v.d.wrap && v.d.w > 1)
            && v.d.x == (if u.count < 1 then 0
                         else Short(Min(if u.params[1] > 0 then u.params[1] - 1 else u.params[1], u.d.w - 1)))
  {
    var t := u.(start := false, isPrivate := if u.start then false else u.isPrivate,
                count := if u.count < MAX_PARAMETERS then u.count + 1 else u.count);
    assert u.Step('H' as int) == t.Position().Enter(Normal);
    hide Term.Step, Sized;
  }

  lemma {:induction false} EmitAllFrame(d: Display, s: seq<int>)
    requires Good(d)
    ensures var e := EmitAll(d, s); Good(e) && e == d.(screen := e.screen, x := e.x, y := e.y)
    decreases |s|
  {
    if s != [] {
      EmitIsGood(d, s[0]);
      hide Good;
      EmitAllFrame(d.Emit(s[0]), s[1..]);
    }
  }
}
