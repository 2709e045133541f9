/** Control sequences (section 5.4 of ECMA-48): what the parser makes of the parameters of a sequence,
    whatever their number; that an unrecognised sequence is shown as it came; and what an overflowing
    parameter does. */
module ControlSequences {
  import opened Bytes
  import opened Displays
  import opened Terminal
  import opened Invariants

  const INT_LIMIT := 0x8000_0000

  /** A parameter as it is sent: nothing, or a number in decimal digits. */
  datatype Argument = Omitted | Given(n: nat) {
    function Text(): seq<Byte> {
      if Omitted? then [] else Decimal(n)
    }

    /** The parameter that arrives: 0 if it was left out, and a number as a C int holds it. */
    function Value(): int {
      if Omitted? then 0 else Wrap32(n)
    }
  }

  function ArgumentText(args: seq<Argument>): seq<Byte> {
    if args == [] then []
    else if |args| == 1 then args[0].Text()
    else ArgumentText(args[..|args| - 1]) + [';' as int] + args[|args| - 1].Text()
  }

  /** ESC [ p1 ; ... ; pk F, or ESC [ ? p1 ; ... ; pk F. */
  function Sequence(marked: bool, args: seq<Argument>, final: Byte): seq<Byte> {
    [ESC, '[' as int] + (if marked then ['?' as int] else []) + (ArgumentText(args) + [final])
  }

  predicate IsFinal(b: Byte) {
    !IsControl(b) && !IsDigit(b) && b != ';' as int && b != '?' as int
  }

  /** `t` once it has seen that no '?' begins the parameters. */
  function Begun(t: Term): Term {
    t.(start := false, isPrivate := if t.start then false else t.isPrivate)
  }

  /** `t` after the digits of a parameter; those beyond the last place for one are dropped. */
  function WithParameter(t: Term, n: int): Term {
    var u := Begun(t);
    if u.count < MAX_PARAMETERS then u.(params := u.params[u.count := n]) else u
  }

  lemma WrapsOnce(n: nat, digit: nat)
    ensures Wrap32(Wrap32(n) * 10 + digit) == Wrap32(n * 10 + digit)
  {
    var turns := (n + INT_LIMIT) / 0x1_0000_0000;
    assert Wrap32(n) == n - turns * 0x1_0000_0000;
    WholeTurns(n * 10 + digit, 10 * turns);
    hide Wrap32;
  }

  lemma WholeTurns(n: int, turns: int)
    ensures Wrap32(n - turns * 0x1_0000_0000) == Wrap32(n)
  {
  }

  lemma DigitStep(t: Term, n: nat, digit: nat)
    requires t.state.CsiParam? && digit < 10
    ensures WithParameter(t, Wrap32(n)).Step('0' as int + digit) == WithParameter(t, Wrap32(n * 10 + digit))
  {
    WrapsOnce(n, digit);
    hide Wrap32;
    var u := WithParameter(t, Wrap32(n));
    assert t.count < MAX_PARAMETERS ==>
      u.params[u.count := Wrap32(n * 10 + digit)] == t.params[t.count := Wrap32(n * 10 + digit)];
    assert u.Step('0' as int + digit) == u.Digit('0' as int + digit);
  }

  lemma FirstDigit(t: Term, digit: nat)
    requires t.state.CsiParam? && digit < 10 && (t.count < MAX_PARAMETERS ==> t.params[t.count] == 0)
    ensures t.Step('0' as int + digit) == WithParameter(t, digit)
  {
  }

  /** Feeding the decimal form of any number leaves that number in the parameter, as a C int holds it. */
  lemma {:induction false} DigitsAccumulate(t: Term, n: nat)
    requires t.state.CsiParam? && (t.count < MAX_PARAMETERS ==> t.params[t.count] == 0)
    ensures t.Run(Decimal(n)) == WithParameter(t, Wrap32(n))
    decreases n
  {
    if n < 10 {
      RunOne(t, '0' as int + n);
      FirstDigit(t, n);
    } else {
      var last: Byte := '0' as int + n % 10;
      DigitsAccumulate(t, n / 10);
      RunConcat(t, Decimal(n / 10), [last]);
      RunOne(WithParameter(t, Wrap32(n / 10)), last);
      DigitStep(t, n / 10, n % 10);
    }
  }

  /** The parser is where the digits have taken it; with none it has not looked for the '?' yet. */
  lemma ArgumentArrives(t: Term, a: Argument)
    requires t.state.CsiParam? && (t.count < MAX_PARAMETERS ==> t.params[t.count] == 0)
    ensures Begun(t.Run(a.Text())) == WithParameter(t, a.Value())
  {
    if a.Given? {
      DigitsAccumulate(t, a.n);
      hide Term.Run, Decimal;
    }
  }

  /** `u` has read `args` from `t` on: the first sixteen in order, and nothing else has changed. */
  ghost predicate Collected(t: Term, u: Term, args: seq<Argument>) {
    && args != [] && Begun(u) == Begun(t).(params := u.params, count := Min(|args| - 1, 16))
    && forall k | 0 <= k < |args| && k < 16 :: u.params[k] == args[k].Value()
  }

  lemma OneMoreParameter(t: Term, u: Term, init: seq<Argument>, last: Argument)
    requires t.state.CsiParam? && init != [] && Collected(t, u, init)
    ensures Collected(t, u.Run([';' as int] + last.Text()), init + [last])
  {
    RunConcat(u, [';' as int], last.Text());
    RunOne(u, ';' as int);
    var v := Begun(u).NextParam();
    assert u.Step(';' as int) == v;
    ArgumentArrives(v, last);
    hide Term.Run, Term.Step, Argument.Value;
  }

  /** The parameters of a sequence arrive in order, whatever their number. */
  lemma {:induction false} ArgumentsArrive(t: Term, args: seq<Argument>)
    requires t.state.CsiParam? && t.count == 0 && t.params[0] == 0 && args != []
    ensures Collected(t, t.Run(ArgumentText(args)), args)
    decreases |args|
  {
    if |args| == 1 {
      FirstArrives(t, args);
    } else {
      var init, last := args[..|args| - 1], args[|args| - 1];
      var tail: seq<Byte> := [';' as int] + last.Text();
      assert ArgumentText(args) == ArgumentText(init) + tail && init + [last] == args;
      hide *;
      ArgumentsArrive(t, init);
      RunConcat(t, ArgumentText(init), tail);
      OneMoreParameter(t, t.Run(ArgumentText(init)), init, last);
    }
  }

  lemma FirstArrives(t: Term, args: seq<Argument>)
    requires t.state.CsiParam? && t.count == 0 && t.params[0] == 0 && |args| == 1
    ensures Collected(t, t.Run(ArgumentText(args)), args)
  {
    ArgumentArrives(t, args[0]);
    assert ArgumentText(args) == args[0].Text();
    hide Term.Run, Argument.Text, Argument.Value, ArgumentText;
  }

  /** What a function of the table finds when a sequence ends: the parameters it can hold, the mark, and
      nothing else changed. */
  ghost predicate Ready(t: Term, u: Term, marked: bool, args: seq<Argument>) {
    && u == t.Flush().(state := CsiParam, params := u.params, count := Min(|args|, 16), start := false,
                       isPrivate := marked)
    && forall k | 0 <= k < |args| && k < 16 :: u.params[k] == args[k].Value()
  }

  /** From any state a sequence ends in its function, or in showing it, and in the normal state. */
  lemma SequenceIsRead(t: Term, marked: bool, args: seq<Argument>, final: Byte) returns (u: Term)
    requires args != [] && IsFinal(final)
    ensures Ready(t, u, marked, args)
    ensures t.Run(Sequence(marked, args, final)) ==
            (if IsCsiFunction(final) then u.CsiFunction(final) else u.DisplayCsi(final)).Enter(Normal)
  {
    var v := ParametersAreRead(t, marked, args, final);
    hide Sequence, Term.Run, Argument.Value;
    u := Begun(v).(count := if v.count < MAX_PARAMETERS then v.count + 1 else v.count);
    FinalStep(v, final);
    hide Term.Step, Term.CsiFunction, Term.DisplayCsi, IsFinal, IsCsiFunction, Term.Flush;
  }

  lemma ParametersAreRead(t: Term, marked: bool, args: seq<Argument>, final: Byte) returns (v: Term)
    requires args != []
    ensures Collected(t.Flush().(state := CsiParam, count := 0, start := !marked, isPrivate := marked), v, args)
    ensures t.Run(Sequence(marked, args, final)) == v.Step(final)
  {
    var mark: seq<Byte> := if marked then ['?' as int] else [];
    var text := ArgumentText(args);
    hide Term.Step, ArgumentText, Argument.Value;
    assert Sequence(marked, args, final) == [ESC, '[' as int] + (mark + (text + [final]));
    hide Sequence;
    BeginSequence(t);
    RunConcat(t, [ESC, '[' as int], mark + (text + [final]));
    var begun := t.Flush().Enter(Escape).Collect(CsiParam);
    RunConcat(begun, mark, text + [final]);
    var first := begun.Run(mark);
    MarkIsRead(begun, marked);
    hide Term.Flush;
    RunConcat(first, text, [final]);
    hide Term.Run;
    ArgumentsArrive(first, args);
    v := first.Run(text);
    RunOne(v, final);
  }

  lemma FinalStep(v: Term, final: Byte)
    requires v.state.CsiParam? && IsFinal(final)
    ensures var u := Begun(v).(count := if v.count < MAX_PARAMETERS then v.count + 1 else v.count);
            v.Step(final) == (if IsCsiFunction(final) then u.CsiFunction(final) else u.DisplayCsi(final)).Enter(Normal)
  {
    hide Term.CsiFunction, Term.DisplayCsi, IsCsiFunction;
  }

  lemma MarkIsRead(begun: Term, marked: bool)
    requires begun.state.CsiParam? && begun.start
    ensures begun.Run(if marked then ['?' as int] else []) == if marked then begun.(start := false, isPrivate := true) else begun
  {
    if marked {
      RunOne(begun, '?' as int);
    }
  }

  lemma BeginSequence(t: Term)
    ensures t.Run([ESC, '[' as int]) == t.Flush().Enter(Escape).Collect(CsiParam)
  {
    assert [ESC, '[' as int] == [ESC] + ['[' as int];
    RunConcat(t, [ESC], ['[' as int]);
    RunOne(t, ESC);
    RunOne(t.Flush().Enter(Escape), '[' as int);
  }

  // ----- unrecognised sequences -----

  /** Everything but the parser's scratch fields is equal. */
  ghost predicate SameButScratch(t: Term, u: Term) {
    u == t.(params := u.params, count := u.count, start := u.start, isPrivate := u.isPrivate,
            utf8 := u.utf8, utf8Size := u.utf8Size)
  }

  lemma {:induction false} AddAllLeavesParser(t: Term, u: Term, s: seq<int>)
    requires SameButScratch(t, u)
    ensures SameButScratch(t.AddAll(s), u.AddAll(s))
    decreases |s|
  {
    if s != [] {
      AddAllLeavesParser(t.Add(s[0]), u.Add(s[0]), s[1..]);
    }
  }

  lemma {:induction false} AddAllEnter(t: Term, s: seq<int>, state: State)
    ensures t.Enter(state).AddAll(s) == t.AddAll(s).Enter(state)
    decreases |s|
  {
    if s != [] {
      AddAllEnter(t.Add(s[0]), s[1..], state);
      assert t.Enter(state).Add(s[0]) == t.Add(s[0]).Enter(state);
    }
  }

  /** A number as it is shown. */
  function Numeral(n: int): seq<Byte> {
    (if n < 0 then ['-' as int] else []) + Decimal(if n < 0 then -n else n)
  }

  function ShownText(args: seq<Argument>): seq<Byte> {
    if args == [] then []
    else ShownText(args[..|args| - 1]) + (if |args| > 1 then [';' as int] else []) + Numeral(args[|args| - 1].Value())
  }

  lemma {:induction false} ArgumentsArePrinted(args: seq<Argument>, ps: seq<int>)
    requires |ps| == |args| && forall k | 0 <= k < |ps| :: ps[k] == args[k].Value()
    ensures PrintedList(ps) == ShownText(args)
    decreases |args|
  {
    if |args| > 0 {
      NumeralIsPrinted(ps[|ps| - 1]);
      ArgumentsArePrinted(args[..|args| - 1], ps[..|ps| - 1]);
    }
    hide Decimal, Argument.Value, Numeral, Printed;
  }

  lemma NumeralIsPrinted(n: int)
    ensures Numeral(n) == Printed(n)
  {
    hide Decimal;
  }

  /** Numbers that a C int holds are shown as they came. */
  lemma {:induction false} PlainIsShown(args: seq<Argument>)
    requires forall a <- args :: a.Given? && a.n < INT_LIMIT
    ensures ShownText(args) == ArgumentText(args)
    decreases |args|
  {
    if |args| > 0 {
      assert args[|args| - 1] in args;
      PlainIsShown(args[..|args| - 1]);
      if |args| == 1 {
        assert ShownText([]) == [];
      }
    }
    hide Decimal, Wrap32;
  }

  /** The final bytes that are listed for a function. */
  const FUNCTIONS := "ABCDHJKcfghlmnqrxy"

  /** An unrecognised control sequence is put on the screen: from any state, ESC [ p1 ; ... ; pk F, with
      up to sixteen parameters, shows as ^[[p1;...;pkF, and the parser is back in the normal state. What
      was left out shows as 0, what overflowed as the number it became, and a final byte with the high
      bit as a character of the top of the 16-bit range. */
  lemma UnknownSequenceIsEchoed(t: Term, args: seq<Argument>, final: Byte)
    requires args != [] && |args| <= 16 && IsFinal(final) && (final < 0x80 ==> final as char !in FUNCTIONS)
    ensures var shown: seq<int> := ShownText(args) + [if final < 0x80 then final else 0xFF00 + final];
            SameButScratch(t.Flush().AddAll(['^' as int, '[' as int, '[' as int] + shown).Enter(Normal),
                           t.Run(Sequence(false, args, final)))
  {
    var u := SequenceIsRead(t, false, args, final);
    Unlisted(final);
    var text := CsiText(u.FirstParams(), final);
    EchoText(t, u, args, final);
    assert u.DisplayCsi(final) == u.AddAll(text);
    assert SameButScratch(t.Flush().Enter(CsiParam), u);
    hide *;
    EchoIsAdded(t.Flush(), u, text);
  }

  lemma EchoText(t: Term, u: Term, args: seq<Argument>, final: Byte)
    requires Ready(t, u, false, args) && |args| <= 16
    ensures CsiText(u.FirstParams(), final) ==
            ['^' as int, '[' as int, '[' as int] + (ShownText(args) + [if final < 0x80 then final else 0xFF00 + final])
  {
    var ps := u.FirstParams();
    assert |ps| == |args| && forall k | 0 <= k < |args| :: ps[k] == args[k].Value();
    hide *;
    ArgumentsArePrinted(args, ps);
    CsiTextIs(ps, final);
    Regrouped(['^' as int, '[' as int, '[' as int], PrintedList(ps), [if final < 0x80 then final else 0xFF00 + final]);
  }

  lemma Regrouped(a: seq<int>, b: seq<int>, c: seq<int>)
    ensures a + b + c == a + (b + c)
  {
  }

  lemma CsiTextIs(ps: seq<int>, final: Byte)
    ensures CsiText(ps, final) ==
            ['^' as int, '[' as int, '[' as int] + PrintedList(ps) + [if final < 0x80 then final else 0xFF00 + final]
  {
    hide PrintedList;
  }

  lemma EchoIsAdded(t: Term, u: Term, text: seq<int>)
    requires SameButScratch(t.Enter(CsiParam), u)
    ensures SameButScratch(t.AddAll(text).Enter(Normal), u.AddAll(text).Enter(Normal))
  {
    AddAllLeavesParser(t.Enter(CsiParam), u, text);
    AddAllEnter(t, text, CsiParam);
    hide Term.AddAll;
  }

  lemma Unlisted(final: Byte)
    ensures IsCsiFunction(final) <==> final < 0x80 && final as char in FUNCTIONS
  {
    var listed := FUNCTIONS;
    assert listed[0] == 'A' && listed[1] == 'B' && listed[2] == 'C' && listed[3] == 'D' && listed[4] == 'H' && listed[5] == 'J';
    assert listed[6] == 'K' && listed[7] == 'c' && listed[8] == 'f' && listed[9] == 'g' && listed[10] == 'h' && listed[11] == 'l';
    assert listed[12] == 'm' && listed[13] == 'n' && listed[14] == 'q' && listed[15] == 'r' && listed[16] == 'x' && listed[17] == 'y';
  }

  /** Why the bounds need NeverLeaves: a "cursor up" whose parameter a C int holds as a negative
      number moves the cursor down, and past the last row of the window if the number is large enough. */
  lemma OverflowLeavesTheWindow(t: Term, n: nat)
    requires SaneTerm(t) && t.state.Escape? && Wrap32(n) < 0 && t.d.y - Wrap32(n) <= MAX_SHORT
    ensures Wrap32(0xFFFF_FFFF) == -1
    ensures var u := t.Run(['[' as int] + Decimal(n) + ['A' as int]);
            u.d.y == t.d.y - Wrap32(n) && (u.d.y >= t.d.h ==> !SaneTerm(u))
  {
    hide Decimal;
    var digits := Decimal(n);
    RunConcat(t, ['[' as int] + digits, ['A' as int]);
    RunConcat(t, ['[' as int], digits);
    RunOne(t, '[' as int);
    var begun := t.Collect(CsiParam);
    DigitsAccumulate(begun, n);
    var u := WithParameter(begun, Wrap32(n));
    RunOne(u, 'A' as int);
    hide Term.Run;
    assert u.Step('A' as int).d == t.d.CursorUp(Wrap32(n));
  }
}
