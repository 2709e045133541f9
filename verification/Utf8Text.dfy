/** UTF-8 text (section 3 of RFC 3629): decoding undoes encoding, and whatever the bytes,
    every one of them is accounted for in what is shown or still pending. */
module Utf8Text {
  import opened Bytes
  import opened Displays
  import opened Terminal
  import opened ControlSequences

  predicate IsContinuation(b: Byte) {
    b / 0x40 == 2
  }

  /** How many bytes a sequence starting with `b` should have; 1 for ASCII and for no lead byte. */
  function Width(b: Byte): nat {
    if 0xC0 <= b < 0xE0 then 2 else if 0xE0 <= b < 0xF0 then 3 else 1
  }

  predicate NoControls(bytes: seq<Byte>) {
    forall i | 0 <= i < |bytes| :: !IsControl(bytes[i])
  }

  // ----- what a stream means, independently of the parser -----

  /** A character shown and the bytes it stands for. */
  datatype Token = Token(source: seq<Byte>, ch: int)

  datatype Scanned = Scanned(tokens: seq<Token>, rest: seq<Byte>) {
    function After(first: seq<Token>): Scanned {
      this.(tokens := first + tokens)
    }
  }

  function Sources(tokens: seq<Token>): seq<Byte> {
    if tokens == [] then [] else tokens[0].source + Sources(tokens[1..])
  }

  function Chars(tokens: seq<Token>): seq<int> {
    if tokens == [] then [] else [tokens[0].ch] + Chars(tokens[1..])
  }

  function OneByte(glyphs: Glyphs, special: bool, b: Byte): Token {
    Token([b], if b >= 0x80 then glyphs.oem(b) else CharsetGlyph(glyphs, special, b))
  }

  /** A sequence cut short by a byte that does not continue it falls apart into single bytes. */
  function Broken(glyphs: Glyphs, bytes: seq<Byte>): seq<Token> {
    seq(|bytes|, i requires 0 <= i < |bytes| =>
      Token([bytes[i]], if bytes[i] >= 0x80 then glyphs.oem(bytes[i]) else bytes[i]))
  }

  /** The first tokens of a stream and how many bytes they use up; none if the stream ends too early. */
  function First(glyphs: Glyphs, special: bool, bytes: seq<Byte>): (r: (seq<Token>, nat))
    requires bytes != []
    ensures r.1 <= |bytes| && (r.1 == 0 ==> r.0 == [])
  {
    var n := Width(bytes[0]);
    if n == 1 then ([OneByte(glyphs, special, bytes[0])], 1)
    else if |bytes| == 1 then ([], 0)
    else if !IsContinuation(bytes[1]) then (Broken(glyphs, bytes[..2]), 2)
    else if n == 2 then ([Token(bytes[..2], DecodeUtf8(bytes[..2]))], 2)
    else if |bytes| == 2 then ([], 0)
    else if !IsContinuation(bytes[2]) then (Broken(glyphs, bytes[..3]), 3)
    else ([Token(bytes[..3], DecodeUtf8(bytes[..3]))], 3)
  }

  function Scan(glyphs: Glyphs, special: bool, bytes: seq<Byte>): Scanned
    decreases |bytes|
  {
    if bytes == [] then Scanned([], [])
    else
      var (first, n) := First(glyphs, special, bytes);
      if n == 0 then Scanned([], bytes) else Scan(glyphs, special, bytes[n..]).After(first)
  }

  // ----- the parser computes it -----

  /** `u` is `t` after showing `chars`, with `rest` collected so far of a multi-byte character. */
  ghost predicate Emitted(t: Term, u: Term, chars: seq<int>, rest: seq<Byte>) {
    && SameButScratch(t.AddAll(chars).Enter(if rest == [] then Normal else Utf8), u)
    && (rest != [] ==> u.utf8 == rest && u.utf8Size == Width(rest[0]))
  }

  lemma {:induction false} SourcesConcat(a: seq<Token>, b: seq<Token>)
    ensures Sources(a + b) == Sources(a) + Sources(b)
    ensures Chars(a + b) == Chars(a) + Chars(b)
    decreases |a|
  {
    if a == [] {
      assert a + b == b;
    } else {
      assert (a + b)[0] == a[0] && (a + b)[1..] == a[1..] + b;
      SourcesConcat(a[1..], b);
    }
  }

  lemma {:induction false} BrokenTokens(glyphs: Glyphs, bytes: seq<Byte>)
    ensures Sources(Broken(glyphs, bytes)) == bytes
    ensures Chars(Broken(glyphs, bytes))
         == seq(|bytes|, i requires 0 <= i < |bytes| => if bytes[i] >= 0x80 then glyphs.oem(bytes[i]) else bytes[i])
    decreases |bytes|
  {
    if bytes != [] {
      assert Broken(glyphs, bytes)[1..] == Broken(glyphs, bytes[1..]);
      BrokenTokens(glyphs, bytes[1..]);
    }
  }

  lemma OneToken(token: Token)
    ensures Sources([token]) == token.source && Chars([token]) == [token.ch]
  {
    assert [token][1..] == [];
    assert Sources([]) == [] && Chars([]) == [];
  }

  lemma FirstSpells(glyphs: Glyphs, special: bool, bytes: seq<Byte>)
    requires bytes != []
    ensures var (first, n) := First(glyphs, special, bytes); Sources(first) == bytes[..n]
  {
    var (first, n) := First(glyphs, special, bytes);
    BrokenTokens(glyphs, bytes[..n]);
    if |first| == 1 {
      OneToken(first[0]);
      assert first == [first[0]];
    }
    hide Sources, Broken, DecodeUtf8;
  }

  /** What is shown, with what is pending, spells the input: nothing is lost or reordered. */
  lemma {:induction false} ScanLosesNothing(glyphs: Glyphs, special: bool, bytes: seq<Byte>)
    ensures var s := Scan(glyphs, special, bytes); Sources(s.tokens) + s.rest == bytes
    decreases |bytes|
  {
    if bytes != [] {
      var (first, n) := First(glyphs, special, bytes);
      hide First;
      if n > 0 {
        FirstSpells(glyphs, special, bytes);
        ScanLosesNothing(glyphs, special, bytes[n..]);
        var s := Scan(glyphs, special, bytes[n..]);
        SpelledTogether(first, s, bytes, n);
        assert Scan(glyphs, special, bytes) == s.After(first);
      }
    }
  }

  lemma SpelledTogether(first: seq<Token>, s: Scanned, bytes: seq<Byte>, n: nat)
    requires n <= |bytes| && Sources(first) == bytes[..n] && Sources(s.tokens) + s.rest == bytes[n..]
    ensures Sources(s.After(first).tokens) + s.After(first).rest == bytes
  {
    SourcesConcat(first, s.tokens);
    hide Sources;
    assert bytes[..n] + (Sources(s.tokens) + s.rest) == bytes;
  }

  // ----- the runs -----

  lemma RunTwo(t: Term, a: Byte, b: Byte)
    ensures t.Run([a, b]) == t.Step(a).Step(b)
  {
    assert [a, b] == [a] + [b];
    RunConcat(t, [a], [b]);
    RunOne(t, a);
    RunOne(t.Step(a), b);
  }

  lemma RunThree(t: Term, a: Byte, b: Byte, c: Byte)
    ensures t.Run([a, b, c]) == t.Step(a).Step(b).Step(c)
  {
    assert [a, b, c] == [a, b] + [c];
    RunConcat(t, [a, b], [c]);
    RunTwo(t, a, b);
    RunOne(t.Step(a).Step(b), c);
  }

  lemma AddOne(t: Term, ch: int)
    ensures t.AddAll([ch]) == t.Add(ch)
  {
    assert [ch][1..] == [];
    assert t.Add(ch).AddAll([]) == t.Add(ch);
  }

  lemma LeadStep(t: Term, b: Byte)
    requires t.state.Normal? && Width(b) > 1
    ensures t.Step(b) == t.(utf8 := [b], utf8Size := Width(b), state := Utf8)
  {
  }

  lemma ContinuationStep(t: Term, b: Byte)
    requires t.state.Utf8? && IsContinuation(b) && |t.utf8| < t.utf8Size
    ensures var u := t.(utf8 := t.utf8 + [b]);
            t.Step(b) == if |u.utf8| == t.utf8Size then u.Add(DecodeUtf8(u.utf8)).Enter(Normal) else u
  {
  }

  predicate HighBytes(bytes: seq<Byte>) {
    forall i | 0 <= i < |bytes| :: bytes[i] >= 0x80
  }

  lemma BreakStep(t: Term, b: Byte)
    requires t.state.Utf8? && !IsControl(b) && !IsContinuation(b) && HighBytes(t.utf8)
    ensures t.Step(b) == t.AddAll(Chars(Broken(t.glyphs, t.utf8 + [b]))).Enter(Normal)
  {
    BrokenTokens(t.glyphs, t.utf8 + [b]);
    var chars := t.OemGlyphs(t.utf8) + [if b >= 0x80 then t.glyphs.oem(b) else b];
    assert Chars(Broken(t.glyphs, t.utf8 + [b])) == chars;
    hide Broken, Chars, Term.AddAll;
  }

  lemma AddAllScratch(t: Term, u: Term, chars: seq<int>)
    requires SameButScratch(t.Enter(Utf8), u)
    ensures Emitted(t, u.AddAll(chars).Enter(Normal), chars, [])
  {
    AddAllLeavesParser(t.Enter(Utf8), u, chars);
    AddAllEnter(t, chars, Utf8);
    hide Term.AddAll;
  }

  /** A multi-byte character, whole, broken off or unfinished. */
  lemma MultiByteIsRun(t: Term, bytes: seq<Byte>)
    requires t.state.Normal? && NoControls(bytes) && bytes != [] && Width(bytes[0]) > 1
    ensures var (first, n) := First(t.glyphs, t.Special(), bytes);
            if n > 0 then Emitted(t, t.Run(bytes[..n]), Chars(first), []) else Emitted(t, t.Run(bytes), [], bytes)
  {
    if |bytes| == 1 {
      LeadStep(t, bytes[0]);
      RunOne(t, bytes[0]);
      assert bytes == [bytes[0]];
      hide Term.Step, Term.Run;
      assert Emitted(t, t.(utf8 := bytes, utf8Size := Width(bytes[0]), state := Utf8), [], bytes);
    } else if !IsContinuation(bytes[1]) {
      SecondByteBreaks(t, bytes);
    } else {
      SecondByteContinues(t, bytes);
    }
  }

  lemma SecondByteBreaks(t: Term, bytes: seq<Byte>)
    requires t.state.Normal? && NoControls(bytes) && |bytes| >= 2 && Width(bytes[0]) > 1 && !IsContinuation(bytes[1])
    ensures var (first, n) := First(t.glyphs, t.Special(), bytes);
            n > 0 && Emitted(t, t.Run(bytes[..n]), Chars(first), [])
  {
    var u := t.(utf8 := [bytes[0]], utf8Size := Width(bytes[0]), state := Utf8);
    LeadStep(t, bytes[0]);
    RunTwo(t, bytes[0], bytes[1]);
    assert bytes[..2] == [bytes[0], bytes[1]] == u.utf8 + [bytes[1]];
    hide Term.Step, Term.Run, Term.AddAll;
    BreakStep(u, bytes[1]);
    AddAllScratch(t, u, Chars(Broken(t.glyphs, bytes[..2])));
  }

  lemma SecondByteContinues(t: Term, bytes: seq<Byte>)
    requires t.state.Normal? && NoControls(bytes) && |bytes| >= 2 && Width(bytes[0]) > 1 && IsContinuation(bytes[1])
    ensures var (first, n) := First(t.glyphs, t.Special(), bytes);
            if n > 0 then Emitted(t, t.Run(bytes[..n]), Chars(first), []) else Emitted(t, t.Run(bytes), [], bytes)
  {
    var u := t.(utf8 := [bytes[0]], utf8Size := Width(bytes[0]), state := Utf8);
    LeadStep(t, bytes[0]);
    assert bytes[..2] == [bytes[0]] + [bytes[1]];
    var v := u.(utf8 := bytes[..2]);
    ContinuationStep(u, bytes[1]);
    RunTwo(t, bytes[0], bytes[1]);
    assert bytes[..2] == [bytes[0], bytes[1]];
    hide Term.Step, Term.Run, Term.AddAll, Term.Add;
    if u.utf8Size == 2 {
      FinishedCharacter(t, v, bytes[..2]);
    } else if |bytes| == 2 {
      assert bytes == bytes[..2];
      assert Emitted(t, v, [], bytes);
    } else {
      LongCharacterIsRun(t, v, bytes);
    }
  }

  lemma FinishedCharacter(t: Term, u: Term, bytes: seq<Byte>)
    requires SameButScratch(t.Enter(Utf8), u) && 2 <= |bytes| <= 3
    ensures Emitted(t, u.Add(DecodeUtf8(bytes)).Enter(Normal), Chars([Token(bytes, DecodeUtf8(bytes))]), [])
  {
    var ch := DecodeUtf8(bytes);
    hide DecodeUtf8;
    OneToken(Token(bytes, ch));
    AddAllScratch(t, u, [ch]);
    AddOne(u, ch);
  }

  lemma LongCharacterIsRun(t: Term, v: Term, bytes: seq<Byte>)
    requires t.state.Normal? && NoControls(bytes) && |bytes| >= 3 && Width(bytes[0]) == 3 && IsContinuation(bytes[1])
    requires t.Step(bytes[0]).Step(bytes[1]) == v && SameButScratch(t.Enter(Utf8), v)
    requires v.utf8 == bytes[..2] && v.utf8Size == 3
    ensures var (first, n) := First(t.glyphs, t.Special(), bytes);
            n == 3 && Emitted(t, t.Run(bytes[..3]), Chars(first), [])
  {
    RunThree(t, bytes[0], bytes[1], bytes[2]);
    assert bytes[..3] == [bytes[0], bytes[1], bytes[2]];
    assert bytes[..3] == bytes[..2] + [bytes[2]];
    hide Term.Run, Emitted;
    if !IsContinuation(bytes[2]) {
      BreakStep(v, bytes[2]);
      AddAllScratch(t, v, Chars(Broken(t.glyphs, bytes[..3])));
    } else {
      ContinuationStep(v, bytes[2]);
      FinishedCharacter(t, v.(utf8 := bytes[..3]), bytes[..3]);
    }
  }

  lemma FirstIsRun(t: Term, bytes: seq<Byte>)
    requires t.state.Normal? && NoControls(bytes) && bytes != []
    ensures var (first, n) := First(t.glyphs, t.Special(), bytes);
            if n > 0 then Emitted(t, t.Run(bytes[..n]), Chars(first), []) else Emitted(t, t.Run(bytes), [], bytes)
  {
    if Width(bytes[0]) > 1 {
      MultiByteIsRun(t, bytes);
    } else {
      var token := OneByte(t.glyphs, t.Special(), bytes[0]);
      assert bytes[..1] == [bytes[0]];
      RunOne(t, bytes[0]);
      OneToken(token);
      AddOne(t, token.ch);
      hide Term.Run;
      assert t.Step(bytes[0]) == t.Add(token.ch);
      hide Term.Step;
      AddKeepsParser(t, token.ch);
    }
  }

  lemma AddKeepsParser(t: Term, ch: int)
    ensures var u := t.Add(ch); u == t.(d := u.d, out := u.out)
  {
  }

  lemma EmittedConcat(t: Term, u: Term, v: Term, a: seq<int>, b: seq<int>, rest: seq<Byte>)
    requires t.state.Normal? && Emitted(t, u, a, []) && Emitted(u, v, b, rest)
    ensures Emitted(t, v, a + b, rest)
  {
    AddAllConcat(t, a, b);
    AddAllLeavesParser(t.AddAll(a).Enter(Normal), u, b);
    AddAllEnter(t.AddAll(a), b, Normal);
    hide Term.AddAll;
  }

  lemma {:induction false} AddAllKeepsParser(t: Term, s: seq<int>)
    ensures var u := t.AddAll(s); u == t.(d := u.d, out := u.out)
    decreases |s|
  {
    if s != [] {
      AddKeepsParser(t, s[0]);
      AddAllKeepsParser(t.Add(s[0]), s[1..]);
    }
  }

  /** On bytes without control characters the terminal shows exactly the scanned tokens and keeps the rest. */
  lemma {:induction false} TerminalScans(t: Term, bytes: seq<Byte>)
    requires t.state.Normal? && NoControls(bytes)
    ensures var s := Scan(t.glyphs, t.Special(), bytes);
            Emitted(t, t.Run(bytes), Chars(s.tokens), s.rest)
    decreases |bytes|
  {
    if bytes != [] {
      var (first, n) := First(t.glyphs, t.Special(), bytes);
      FirstIsRun(t, bytes);
      if n > 0 {
        var u := t.Run(bytes[..n]);
        assert bytes[..n] + bytes[n..] == bytes;
        RunConcat(t, bytes[..n], bytes[n..]);
        AddAllKeepsParser(t, Chars(first));
        assert u.state.Normal? && u.glyphs == t.glyphs && u.Special() == t.Special();
        TerminalScans(u, bytes[n..]);
        var s := Scan(t.glyphs, t.Special(), bytes[n..]);
        SourcesConcat(first, s.tokens);
        hide First, Emitted, Term.Run;
        EmittedConcat(t, u, u.Run(bytes[n..]), Chars(first), Chars(s.tokens), s.rest);
      }
    }
  }

  // ----- the round trip -----

  predicate IsTextChar(ch: int) {
    0x20 <= ch <= 0x7E || 0x80 <= ch <= 0xFFFF
  }

  function Encode(ch: int): seq<Byte>
    requires IsTextChar(ch)
  {
    if ch < 0x80 then [ch]
    else if ch < 0x800 then [0xC0 + ch / 0x40, 0x80 + ch % 0x40]
    else [0xE0 + ch / 0x1000, 0x80 + ch / 0x40 % 0x40, 0x80 + ch % 0x40]
  }

  function EncodeAll(chars: seq<int>): seq<Byte>
    requires forall i | 0 <= i < |chars| :: IsTextChar(chars[i])
  {
    if chars == [] then [] else Encode(chars[0]) + EncodeAll(chars[1..])
  }

  lemma EncodedIsFirst(glyphs: Glyphs, ch: int, rest: seq<Byte>)
    requires IsTextChar(ch)
    ensures First(glyphs, false, Encode(ch) + rest) == ([Token(Encode(ch), ch)], |Encode(ch)|)
  {
    var bytes := Encode(ch) + rest;
    var n := |Encode(ch)|;
    EncodedBytes(ch);
    assert bytes[..n] == Encode(ch) && bytes[0] == Encode(ch)[0];
    assert n > 1 ==> bytes[1] == Encode(ch)[1];
    assert n > 2 ==> bytes[2] == Encode(ch)[2];
    hide Width, IsContinuation, Broken, Encode;
  }

  lemma EncodedBytes(ch: int)
    requires IsTextChar(ch)
    ensures var e := Encode(ch);
            && NoControls(e) && Width(e[0]) == |e| && (forall i | 0 < i < |e| :: IsContinuation(e[i]))
            && (if |e| > 1 then DecodeUtf8(e) == ch else e[0] == ch && ch < 0x80)
  {
    var high, middle, low := ch / 0x1000, ch / 0x40 % 0x40, ch % 0x40;
    assert ch == high * 0x1000 + middle * 0x40 + low;
    if ch >= 0x800 {
      assert (0xE0 + high) % 0x10 == high && (0x80 + middle) % 0x40 == middle && (0x80 + low) % 0x40 == low;
    } else if ch >= 0x80 {
      assert (0xC0 + ch / 0x40) % 0x20 == ch / 0x40 && (0x80 + low) % 0x40 == low;
    }
  }

  lemma {:induction false} ScanUndoesEncode(glyphs: Glyphs, chars: seq<int>)
    requires forall i | 0 <= i < |chars| :: IsTextChar(chars[i])
    ensures var bytes := EncodeAll(chars);
            var s := Scan(glyphs, false, bytes);
            NoControls(bytes) && Chars(s.tokens) == chars && s.rest == []
    decreases |chars|
  {
    if chars != [] {
      var rest := EncodeAll(chars[1..]);
      ScanUndoesEncode(glyphs, chars[1..]);
      EncodedBytes(chars[0]);
      EncodedIsFirst(glyphs, chars[0], rest);
      assert (Encode(chars[0]) + rest)[|Encode(chars[0])|..] == rest;
      var token := Token(Encode(chars[0]), chars[0]);
      OneToken(token);
      SourcesConcat([token], Scan(glyphs, false, rest).tokens);
    }
  }

  /** With the ASCII set selected, text encoded in UTF-8 comes out as itself, ready for more. */
  lemma Utf8RoundTrip(t: Term, chars: seq<int>)
    requires t.state.Normal? && !t.Special()
    requires forall i | 0 <= i < |chars| :: IsTextChar(chars[i])
    ensures SameButScratch(t.AddAll(chars), t.Run(EncodeAll(chars)))
  {
    ScanUndoesEncode(t.glyphs, chars);
    TerminalScans(t, EncodeAll(chars));
    AddAllKeepsParser(t, chars);
  }

  /** Malformed or not, from the normal state every byte of a stream without control characters
      is in the source of one shown character or in the pending bytes, in order. */
  lemma NothingIsLost(t: Term, bytes: seq<Byte>)
    requires t.state.Normal? && NoControls(bytes)
    ensures var s := Scan(t.glyphs, t.Special(), bytes);
            var u := t.Run(bytes);
            && SameButScratch(t.AddAll(Chars(s.tokens)).Enter(u.state), u)
            && Sources(s.tokens) + (if u.state.Utf8? then u.utf8 else []) == bytes
  {
    TerminalScans(t, bytes);
    ScanLosesNothing(t.glyphs, t.Special(), bytes);
  }
}
