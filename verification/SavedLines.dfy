/** What the save side prints, and the theorem that the restore side reads it back. */
module SavedLines {
  import opened Bytes
  import opened ConfigLines

  // ----- printing -----

  function Digit(n: nat): char
    requires n < 16
  {
    if n < 10 then '0' + n as char else 'a' + (n - 10) as char
  }

  /** "%d" of a byte. */
  function Decimal(n: Byte): string {
    if n < 10 then [Digit(n)]
    else if n < 100 then [Digit(n / 10), Digit(n % 10)]
    else [Digit(n / 100), Digit(n / 10 % 10), Digit(n % 10)]
  }

  /** A parameter, printed with "%d" or with "%02d". */
  datatype Parameter = Parameter(value: Byte, padded: bool) {
    function Text(): string {
      if padded && value < 10 then "0" + Decimal(value) else Decimal(value)
    }
  }

  function Spaces(n: nat): string {
    if n == 0 then "" else " " + Spaces(n - 1)
  }

  function Joined(ps: seq<Parameter>): string {
    if ps == [] then "" else if |ps| == 1 then ps[0].Text() else ps[0].Text() + "," + Joined(ps[1..])
  }

  /** "%02x". */
  function Hex(b: Byte): string {
    [Digit(b / 16), Digit(b % 16)]
  }

  /** The data bytes, each after a space. */
  function HexBytes(data: seq<Byte>): string {
    if data == [] then "" else " " + Hex(data[0]) + HexBytes(data[1..])
  }

  /** A saved line; the gap after the keyword and the blanks after the delimiter vary between keywords. */
  function Line(keyword: string, gap: nat, ps: seq<Parameter>, delim: char, pad: nat, data: seq<Byte>, end: string): string {
    keyword + Spaces(gap) + Joined(ps) + [delim] + (Spaces(pad) + HexBytes(data) + end)
  }

  // ----- numbers come back -----

  /** A digit taken off the front of a number. */
  lemma DigitIsTaken(d: nat, s: string, base: nat, sofar: nat)
    requires d < 10 && d < base
    ensures Digits([Digit(d)] + s, base, sofar) == Digits(s, base, sofar * base + d)
  {
    assert ([Digit(d)] + s)[1..] == s;
  }

  lemma DigitIsPlain(d: nat)
    requires d < 10
    ensures DigitOf(Digit(d)) == d && (Digit(d) == '0' <==> d == 0) && '0' <= Digit(d) <= '9'
  {
  }

  lemma OneDigit(a: nat)
    requires a < 10
    ensures Unsigned([Digit(a)]) == Some(a)
  {
    DigitIsPlain(a);
    assert [Digit(a)] == [Digit(a)] + "" && [Digit(a)][1..] == "";
    DigitIsTaken(a, "", 10, 0);
  }

  lemma TwoDigits(a: nat, b: nat)
    requires 1 <= a < 10 && b < 10
    ensures Unsigned([Digit(a), Digit(b)]) == Some(a * 10 + b)
  {
    DigitIsPlain(a);
    assert [Digit(a), Digit(b)] == [Digit(a)] + ([Digit(b)] + "");
    DigitIsTaken(a, [Digit(b)] + "", 10, 0);
    DigitIsTaken(b, "", 10, a);
    assert Digits([Digit(a), Digit(b)], 10, 0) == Some(a * 10 + b);
    hide Digits, Digit;
  }

  lemma ThreeDigits(a: nat, b: nat, c: nat)
    requires 1 <= a < 10 && b < 10 && c < 10
    ensures Unsigned([Digit(a), Digit(b), Digit(c)]) == Some(a * 100 + b * 10 + c)
  {
    DigitIsPlain(a);
    assert [Digit(a), Digit(b), Digit(c)] == [Digit(a)] + ([Digit(b)] + ([Digit(c)] + ""));
    DigitIsTaken(a, [Digit(b)] + ([Digit(c)] + ""), 10, 0);
    DigitIsTaken(b, [Digit(c)] + "", 10, a);
    DigitIsTaken(c, "", 10, a * 10 + b);
    assert Digits([Digit(a), Digit(b), Digit(c)], 10, 0) == Some(a * 100 + b * 10 + c);
    hide Digits, Digit;
  }

  lemma DecimalIsNumber(n: Byte)
    ensures Unsigned(Decimal(n)) == Some(n)
  {
    hide Unsigned, Digit;
    if n >= 100 {
      ThreeDigits(n / 100, n / 10 % 10, n % 10);
    } else if n >= 10 {
      TwoDigits(n / 10, n % 10);
    } else {
      OneDigit(n);
    }
  }

  lemma DecimalStarts(n: Byte)
    ensures '0' <= Decimal(n)[0] <= '9' && (|Decimal(n)| >= 2 ==> Decimal(n)[0] != '0')
  {
  }

  lemma {:induction false} SpacesAreSkipped(gap: nat, s: string)
    ensures SkipSpaces(Spaces(gap) + s) == SkipSpaces(s)
    decreases gap
  {
    if gap == 0 {
      assert Spaces(0) + s == s;
    } else {
      assert (Spaces(gap) + s)[0] == ' ' && (Spaces(gap) + s)[1..] == Spaces(gap - 1) + s;
      SpacesAreSkipped(gap - 1, s);
    }
  }

  /** What the reader makes of a parameter after `gap` spaces: octal refuses a padded 8 or 9, and the
      special case for them only looks at the very start of the text. */
  function ReadAs(p: Parameter, gap: nat): Byte {
    if gap > 0 && p.padded && 8 <= p.value <= 9 then 0 else p.value
  }

  lemma PaddedIsOctal(n: Byte)
    requires n < 10
    ensures Unsigned("0" + Decimal(n)) == if n < 8 then Some(n) else None
  {
    var s := "0" + Decimal(n);
    assert |s| == 2 && s[1..] == [Digit(n)] == [Digit(n)] + "";
    if n < 8 {
      DigitIsTaken(n, "", 8, 0);
    } else {
      assert DigitOf(Digit(n)) == n;
      assert Digits([Digit(n)], 8, 0) == None;
    }
  }

  lemma ParameterIsRead(p: Parameter, gap: nat)
    ensures Atob(Spaces(gap) + p.Text()) == ReadAs(p, gap)
  {
    var text, s := p.Text(), Spaces(gap) + p.Text();
    SpacesAreSkipped(gap, text);
    DecimalIsNumber(p.value);
    DecimalStarts(p.value);
    if p.value < 10 {
      PaddedIsOctal(p.value);
    }
    assert SkipSpaces(text) == text;
    if gap > 0 {
      assert s[0] == ' ';
    } else {
      assert s == text;
    }
    hide Unsigned, SkipSpaces, Spaces;
  }

  // ----- the parts of a line -----

  predicate NoneIn(s: string, c: char) {
    forall i | 0 <= i < |s| :: s[i] != c
  }

  lemma {:induction false} IndexAfter(a: string, c: char, b: string)
    requires NoneIn(a, c)
    ensures IndexOf(a + [c] + b, c) == |a|
    decreases |a|
  {
    if a == [] {
    } else {
      assert (a + [c] + b)[0] == a[0] && (a + [c] + b)[1..] == a[1..] + [c] + b;
      IndexAfter(a[1..], c, b);
    }
  }

  lemma {:induction false} IndexNone(a: string, c: char)
    requires NoneIn(a, c)
    ensures IndexOf(a, c) == |a|
    decreases |a|
  {
    if a != [] {
      IndexNone(a[1..], c);
    }
  }

  lemma {:induction false} SpacesAre(n: nat)
    ensures |Spaces(n)| == n && forall i | 0 <= i < n :: Spaces(n)[i] == ' '
    decreases n
  {
    if n > 0 {
      SpacesAre(n - 1);
    }
  }

  /** A key character that separates nothing. */
  predicate IsPlain(c: char) {
    '0' <= c <= '9' || c == ','
  }

  lemma {:induction false} JoinedIsPlain(ps: seq<Parameter>)
    ensures forall i | 0 <= i < |Joined(ps)| :: IsPlain(Joined(ps)[i])
    decreases |ps|
  {
    if |ps| > 1 {
      JoinedIsPlain(ps[1..]);
    }
  }

  lemma TextHasNoComma(p: Parameter, gap: nat)
    ensures NoneIn(Spaces(gap) + p.Text(), ',')
  {
    SpacesAre(gap);
  }

  /** One piece and its comma in front of the others. */
  lemma PieceIsCut(piece: string, rest: string, n: nat)
    requires NoneIn(piece, ',') && n >= 1
    ensures Pieces(piece, n) == [piece]
    ensures Pieces(piece + [','] + rest, n) == [piece] + Pieces(rest, n - 1)
  {
    IndexNone(piece, ',');
    IndexAfter(piece, ',', rest);
    var s := piece + [','] + rest;
    assert s[..|piece|] == piece && s[|piece| + 1..] == rest;
    hide IndexOf;
  }

  /** The pieces of the printed parameters are their texts, the first one after the gap. */
  function Texts(ps: seq<Parameter>, gap: nat): (r: seq<string>)
    ensures |r| == |ps| && forall i | 0 <= i < |ps| :: r[i] == Spaces(if i == 0 then gap else 0) + ps[i].Text()
  {
    seq(|ps|, i requires 0 <= i < |ps| => Spaces(if i == 0 then gap else 0) + ps[i].Text())
  }

  lemma FirstText(ps: seq<Parameter>, gap: nat, n: nat)
    requires 2 <= |ps| <= n
    ensures Pieces(Spaces(gap) + Joined(ps), n) == [Spaces(gap) + ps[0].Text()] + Pieces(Spaces(0) + Joined(ps[1..]), n - 1)
    ensures Texts(ps, gap) == [Spaces(gap) + ps[0].Text()] + Texts(ps[1..], 0)
  {
    TextsSplit(ps, gap);
    JoinedSplits(ps);
    hide *;
    var first, rest := Spaces(gap) + ps[0].Text(), Joined(ps[1..]);
    assert Spaces(gap) + (ps[0].Text() + [','] + rest) == first + [','] + rest;
    assert "" + rest == rest;
    TextHasNoComma(ps[0], gap);
    PieceIsCut(first, rest, n);
  }

  lemma JoinedSplits(ps: seq<Parameter>)
    requires |ps| >= 2
    ensures Joined(ps) == ps[0].Text() + [','] + Joined(ps[1..]) && Spaces(0) == ""
  {
    hide Parameter.Text;
  }

  lemma TextsSplit(ps: seq<Parameter>, gap: nat)
    requires |ps| >= 2
    ensures Texts(ps, gap) == [Spaces(gap) + ps[0].Text()] + Texts(ps[1..], 0)
  {
    hide Parameter.Text, Spaces, Texts;
    var a, b := Texts(ps, gap), [Spaces(gap) + ps[0].Text()] + Texts(ps[1..], 0);
    forall i | 0 <= i < |ps| ensures a[i] == b[i] {
      if i > 0 {
        assert b[i] == Texts(ps[1..], 0)[i - 1] == Spaces(0) + ps[i].Text();
      }
    }
  }

  lemma {:induction false} PiecesAreTexts(ps: seq<Parameter>, gap: nat, n: nat)
    requires 1 <= |ps| <= n
    ensures Pieces(Spaces(gap) + Joined(ps), n) == Texts(ps, gap)
    decreases |ps|
  {
    hide *;
    if |ps| == 1 {
      OnlyText(ps, gap, n);
    } else {
      PiecesAreTexts(ps[1..], 0, n - 1);
      FirstText(ps, gap, n);
    }
  }

  lemma OnlyText(ps: seq<Parameter>, gap: nat, n: nat)
    requires |ps| == 1 <= n
    ensures Pieces(Spaces(gap) + Joined(ps), n) == Texts(ps, gap)
  {
    hide Pieces, Parameter.Text, Spaces;
    TextHasNoComma(ps[0], gap);
    PieceIsCut(Spaces(gap) + ps[0].Text(), "", n);
  }

  /** The parameters the restore side finds in a saved key. */
  function ParametersRead(ps: seq<Parameter>, gap: nat): seq<Byte> {
    seq(PARAMETERS, i requires 0 <= i < PARAMETERS => if i < |ps| then ReadAs(ps[i], if i == 0 then gap else 0) else 0)
  }

  lemma TailFound(keyword: string, gap: nat, rest: string)
    requires NoneIn(keyword, ' ') && gap >= 1
    ensures FromFirstSpace(keyword + Spaces(gap) + rest) == Spaces(gap) + rest
    ensures IndexOf(keyword + Spaces(gap) + rest, ' ') == |keyword|
  {
    hide *;
    FirstSpace(gap, rest);
    var key, tail := keyword + Spaces(gap) + rest, Spaces(gap - 1) + rest;
    IndexAfter(keyword, ' ', tail);
    assert key == keyword + (Spaces(gap) + rest);
    assert keyword + [' '] + tail == keyword + ([' '] + tail);
    SpaceFound(keyword, Spaces(gap) + rest);
  }

  lemma FirstSpace(gap: nat, rest: string)
    requires gap >= 1
    ensures Spaces(gap) + rest == [' '] + (Spaces(gap - 1) + rest)
  {
  }

  lemma SpaceFound(keyword: string, tail: string)
    requires IndexOf(keyword + tail, ' ') == |keyword| && tail != ""
    ensures FromFirstSpace(keyword + tail) == tail
  {
    hide IndexOf;
  }

  lemma KeyIsRead(keyword: string, gap: nat, ps: seq<Parameter>)
    requires NoneIn(keyword, ' ') && gap >= 1 && 1 <= |ps| <= PARAMETERS
    ensures KeyParameters(keyword + Spaces(gap) + Joined(ps)) == ParametersRead(ps, gap)
    ensures IndexOf(keyword + Spaces(gap) + Joined(ps), ' ') == |keyword|
  {
    TailFound(keyword, gap, Joined(ps));
    PiecesAreTexts(ps, gap, PARAMETERS);
    NumbersAreRead(ps, gap);
    hide Numbers, Pieces, ParametersRead, Joined, Spaces, IndexOf, FromFirstSpace, Texts, NoneIn;
  }

  lemma NumbersAreRead(ps: seq<Parameter>, gap: nat)
    requires |ps| <= PARAMETERS
    ensures Numbers(Texts(ps, gap)) == ParametersRead(ps, gap)
  {
    hide Atob, ReadAs, Spaces, Parameter.Text;
    forall i | 0 <= i < |ps| ensures Atob(Texts(ps, gap)[i]) == ReadAs(ps[i], if i == 0 then gap else 0) {
      ParameterIsRead(ps[i], if i == 0 then gap else 0);
    }
  }

  // ----- values come back -----

  lemma DigitIsRead(n: nat)
    requires n < 16
    ensures HexDigit(Digit(n)) == n && !IsBlank(Digit(n))
  {
  }

  /** Without its leading space the hex text is what the value decoder steps through. */
  lemma {:induction false} ValueIsRead(data: seq<Byte>)
    requires data != []
    ensures ValueBytes(HexBytes(data)[1..]) == data
    decreases |data|
  {
    var text := HexBytes(data);
    var value := text[1..];
    DigitIsRead(data[0] / 16);
    DigitIsRead(data[0] % 16);
    assert value[0] == Digit(data[0] / 16) && value[1] == Digit(data[0] % 16);
    assert Htoi(value) == data[0];
    if |data| == 1 {
      assert HexBytes(data[1..]) == "";
      assert |value| == 2;
    } else {
      assert HexBytes(data[1..]) != "";
      assert value[3..] == HexBytes(data[1..])[1..];
      ValueIsRead(data[1..]);
    }
  }

  lemma {:induction false} LastIsNotBlank(data: seq<Byte>)
    requires data != []
    ensures HexBytes(data) != "" && !IsBlank(HexBytes(data)[|HexBytes(data)| - 1]) && |HexBytes(data)| == 3 * |data|
    decreases |data|
  {
    DigitIsRead(data[0] % 16);
    if |data| > 1 {
      LastIsNotBlank(data[1..]);
    }
  }

  predicate AllBlank(s: string) {
    forall i | 0 <= i < |s| :: IsBlank(s[i])
  }

  lemma {:induction false} BlanksAreTrimmed(blanks: string, s: string)
    requires AllBlank(blanks)
    ensures TrimLeft(blanks + s) == TrimLeft(s)
    decreases |blanks|
  {
    if blanks == [] {
      assert blanks + s == s;
    } else {
      assert (blanks + s)[0] == blanks[0] && (blanks + s)[1..] == blanks[1..] + s;
      BlanksAreTrimmed(blanks[1..], s);
    }
  }

  lemma {:induction false} EndIsTrimmed(s: string, blanks: string)
    requires AllBlank(blanks)
    ensures TrimRight(s + blanks) == TrimRight(s)
    decreases |blanks|
  {
    if blanks == [] {
      assert s + blanks == s;
    } else {
      var t := s + blanks;
      assert t[|t| - 1] == blanks[|blanks| - 1] && t[..|t| - 1] == s + blanks[..|blanks| - 1];
      EndIsTrimmed(s, blanks[..|blanks| - 1]);
    }
  }

  lemma ValueIsTrimmed(pad: nat, data: seq<Byte>, end: string)
    requires AllBlank(end)
    ensures ValueBytes(TrimRight(TrimLeft(Spaces(pad) + HexBytes(data) + end))) == data
  {
    SpacesAre(pad);
    if data == [] {
      assert Spaces(pad) + HexBytes(data) + end == Spaces(pad) + (end + "");
      BlanksAreTrimmed(Spaces(pad), end + "");
      BlanksAreTrimmed(end, "");
    } else {
      var text := HexBytes(data);
      assert text[0] == ' ';
      LastIsNotBlank(data);
      DigitIsRead(data[0] / 16);
      assert text == " " + text[1..] && text[1] == Digit(data[0] / 16);
      assert Spaces(pad) + text + end == (Spaces(pad) + " ") + (text[1..] + end);
      BlanksAreTrimmed(Spaces(pad) + " ", text[1..] + end);
      assert (text[1..] + end)[0] == text[1];
      assert TrimLeft(text[1..] + end) == text[1..] + end;
      EndIsTrimmed(text[1..], end);
      assert text[1..][|text| - 2] == text[|text| - 1];
      assert TrimRight(text[1..]) == text[1..];
      ValueIsRead(data);
    }
  }

  // ----- the round trip -----

  /** A keyword of visible characters that neither separate nor start a comment. */
  predicate IsKeyword(k: string, delim: char, comment: char) {
    && k != [] && k[0] != comment && NoneIn(k, ' ') && NoneIn(k, delim)
    && forall i | 0 <= i < |k| :: !IsBlank(k[i])
  }

  predicate IsDelimiter(c: char) {
    !IsBlank(c) && !IsPlain(c)
  }

  /** Whatever the saved line, the restore side gets its keyword, its data bytes and its parameters,
      but for a first parameter of 8 or 9 printed with a leading zero, which reads as 0. */
  lemma SavedLineReadsBack(keyword: string, gap: nat, ps: seq<Parameter>, delim: char, pad: nat, data: seq<Byte>, end: string,
                           comment: char)
    requires IsKeyword(keyword, delim, comment) && IsDelimiter(delim) && gap >= 1 && 1 <= |ps| <= PARAMETERS && AllBlank(end)
    ensures var r := ParsedLine(Line(keyword, gap, ps, delim, pad, data, end), delim, comment);
            && r.Pair?
            && r.key[..IndexOf(r.key, ' ')] == keyword
            && KeyParameters(r.key) == ParametersRead(ps, gap)
            && ValueBytes(r.value) == data
  {
    var key := keyword + Spaces(gap) + Joined(ps);
    var rest := Spaces(pad) + HexBytes(data) + end;
    var line := Line(keyword, gap, ps, delim, pad, data, end);
    assert line == key + [delim] + rest;
    KeyHasNoDelimiter(keyword, gap, ps, delim);
    KeyIsRead(keyword, gap, ps);
    ValueIsTrimmed(pad, data, end);
    assert key[0] == keyword[0] && key[..|keyword|] == keyword;
    hide Joined, Spaces, KeyParameters, ParametersRead, ValueBytes, HexBytes, Line;
    LineIsCut(key, delim, rest, comment);
  }

  lemma KeyHasNoDelimiter(keyword: string, gap: nat, ps: seq<Parameter>, delim: char)
    requires NoneIn(keyword, delim) && IsDelimiter(delim)
    ensures NoneIn(keyword + Spaces(gap) + Joined(ps), delim)
  {
    SpacesAre(gap);
    JoinedIsPlain(ps);
  }

  lemma LineIsCut(key: string, delim: char, rest: string, comment: char)
    requires key != [] && !IsBlank(key[0]) && key[0] != comment && NoneIn(key, delim)
    ensures ParsedLine(key + [delim] + rest, delim, comment) == Pair(key, TrimRight(TrimLeft(rest)))
  {
    var line := key + [delim] + rest;
    IndexAfter(key, delim, rest);
    assert line[0] == key[0] && line[..|key|] == key && line[|key| + 1..] == rest;
    assert TrimLeft(line) == line && TrimLeft(key) == key;
  }

  /** So every parameter comes back exactly when the first is not such an 8 or 9. */
  lemma ParametersComeBackExactly(ps: seq<Parameter>, gap: nat)
    requires gap >= 1 && 1 <= |ps| <= PARAMETERS
    ensures (forall i | 0 <= i < |ps| :: ParametersRead(ps, gap)[i] == ps[i].value)
            <==> !(ps[0].padded && 8 <= ps[0].value <= 9)
  {
    assert ParametersRead(ps, gap)[0] == ReadAs(ps[0], gap);
  }
}
