/** The configuration text format: `Keyword a,b,c: xx xx xx`, printed by the save side and taken
    apart by the restore side with pointers moving over the line. */
module ConfigLines {
  import opened Bytes

  const NUL: char := '\0'
  const PARAMETERS := 5

  datatype Option<T> = None | Some(value: T)

  /** What is below '!' as a signed char: control characters, space, and the upper half of the range. */
  predicate IsBlank(c: char) {
    c < '!' || c as int >= 0x80
  }

  function IndexOf(s: string, c: char): (i: nat)
    ensures i <= |s| && (i < |s| ==> s[i] == c) && forall k | 0 <= k < i :: s[k] != c
  {
    if s == [] || s[0] == c then 0 else 1 + IndexOf(s[1..], c)
  }

  function TrimLeft(s: string): (r: string)
    ensures |r| <= |s|
  {
    if s == [] || !IsBlank(s[0]) then s else TrimLeft(s[1..])
  }

  function TrimRight(s: string): string {
    if s == [] || !IsBlank(s[|s| - 1]) then s else TrimRight(s[..|s| - 1])
  }

  // ----- cutting a line -----

  datatype Parsed = Comment | NoDelimiter | Pair(key: string, value: string)

  /** A line as a C string: key and value around the first delimiter, blanks trimmed but for the key's end. */
  function ParsedLine(line: string, delim: char, comment: char): Parsed {
    var text := TrimLeft(line);
    if text != [] && text[0] == comment then Comment
    else
      var d := IndexOf(line, delim);
      if d == |line| then NoDelimiter
      else Pair(TrimLeft(line[..d]), TrimRight(TrimLeft(line[d + 1..])))
  }

  /** A C string: the characters up to the first NUL. */
  predicate IsCString(buffer: seq<char>, from: nat, end: nat) {
    from <= end < |buffer| && buffer[end] == NUL && forall i | from <= i < end :: buffer[i] != NUL
  }

  /** Copying a string out of a buffer stops at its NUL. */
  method CopyString(buffer: array<char>, from: nat, ghost end: nat) returns (s: string)
    requires IsCString(buffer[..], from, end)
    ensures s == buffer[from..end]
  {
    s := "";
    var i := from;
    while buffer[i] != NUL
      invariant from <= i <= end && s == buffer[from..i]
      decreases end - i
    {
      s := s + [buffer[i]];
      i := i + 1;
    }
  }

  method SkipBlanks(buffer: array<char>, from: nat, end: nat) returns (i: nat)
    requires from <= end < buffer.Length
    ensures from <= i <= end && buffer[i..end] == TrimLeft(buffer[from..end])
  {
    i := from;
    while i < end && IsBlank(buffer[i])
      invariant from <= i <= end && TrimLeft(buffer[i..end]) == TrimLeft(buffer[from..end])
    {
      assert buffer[i..end][1..] == buffer[i + 1..end];
      i := i + 1;
    }
    assert i < end ==> buffer[i..end][0] == buffer[i];
    assert buffer[i..end] == TrimLeft(buffer[i..end]);
  }

  method FindChar(buffer: array<char>, from: nat, end: nat, c: char) returns (i: nat)
    requires from <= end < buffer.Length
    ensures i == from + IndexOf(buffer[from..end], c)
  {
    i := from;
    while i < end && buffer[i] != c
      invariant from <= i <= end && i + IndexOf(buffer[i..end], c) == from + IndexOf(buffer[from..end], c)
    {
      assert buffer[i..end][0] == buffer[i] && buffer[i..end][1..] == buffer[i + 1..end];
      i := i + 1;
    }
    assert i < end ==> buffer[i..end][0] == buffer[i];
  }

  /** The end of the last word before `end`. */
  method TrimEnd(buffer: array<char>, from: nat, end: nat) returns (i: nat)
    requires from <= end < buffer.Length
    ensures from <= i <= end && buffer[from..i] == TrimRight(buffer[from..end])
  {
    i := end;
    while i > from && IsBlank(buffer[i - 1])
      invariant from <= i <= end && TrimRight(buffer[from..i]) == TrimRight(buffer[from..end])
    {
      assert buffer[from..i][..i - 1 - from] == buffer[from..i - 1];
      i := i - 1;
    }
    assert i > from ==> buffer[from..i][i - from - 1] == buffer[i - 1];
  }

  lemma NothingIsTrimmed(s: string)
    requires s == [] || !IsBlank(s[0])
    ensures TrimLeft(s) == s
  {
  }

  lemma BlankIsTrimmed(s: string)
    requires s != [] && IsBlank(s[0])
    ensures TrimLeft(s) == TrimLeft(s[1..])
  {
  }

  /** The blanks before the key end at the delimiter at the latest. */
  lemma {:induction false} TrimLeftStops(s: string, d: nat)
    requires d < |s| && !IsBlank(s[d])
    ensures |TrimLeft(s)| >= |s| - d
    ensures TrimLeft(s[..d]) == s[|s| - |TrimLeft(s)|..d]
    decreases |s|
  {
    hide TrimLeft;
    if IsBlank(s[0]) {
      var t, u := TrimLeft(s), s[1..];
      assert s[..d][0] == s[0] && s[..d][1..] == u[..d - 1];
      BlankIsTrimmed(s);
      BlankIsTrimmed(s[..d]);
      TrimLeftStops(u, d - 1);
      assert u[|u| - |t|..d - 1] == s[|s| - |t|..d];
    } else {
      NothingIsTrimmed(s);
      NothingIsTrimmed(s[..d]);
    }
  }

  /** Cut the line in place: a NUL on the delimiter ends the key, one after the last word ends the value. */
  method ParseLine(line: array<char>, len: nat, delim: char, comment: char) returns (r: Parsed)
    requires IsCString(line[..], 0, len) && !IsBlank(delim)
    modifies line
    ensures r == ParsedLine(old(line[..len]), delim, comment)
  {
    ghost var text := line[..len];
    assert line[0..len] == text;
    var key := SkipBlanks(line, 0, len);
    assert line[key..len] == TrimLeft(text);
    if key < len && line[key] == comment {
      assert line[key..len][0] == line[key];
      return Comment;
    }
    assert key < len ==> line[key..len][0] == line[key];
    var d := FindChar(line, 0, len, delim);
    if d == len {
      return NoDelimiter;
    }
    TrimLeftStops(text, d);
    assert text[key..d] == line[key..d] && text[d + 1..] == line[d + 1..len] && text[..d] == line[..d];
    r := CutPair(line, len, key, d);
  }

  /** The key from `key` to the delimiter at `d`, and the value after it. */
  method CutPair(line: array<char>, len: nat, key: nat, d: nat) returns (r: Parsed)
    requires IsCString(line[..], 0, len) && key <= d < len
    modifies line
    ensures r == Pair(old(line[key..d]), TrimRight(TrimLeft(old(line[d + 1..len]))))
  {
    line[d] := NUL;
    assert line[d + 1..len] == old(line[d + 1..len]);
    var k := CopyString(line, key, d);
    assert k == old(line[key..d]);
    var val := SkipBlanks(line, d + 1, len);
    var end := TrimEnd(line, val, len);
    ghost var word := line[val..end];
    line[end] := NUL;
    assert line[val..end] == word;
    var v := CopyString(line, val, end);
    r := Pair(k, v);
  }

  // ----- how lines are written -----

  /** What counts as blank: everything up to the space, and what is no ASCII. */
  predicate Blanks(s: string) {
    forall c <- s :: c as int <= 0x20 || c as int >= 0x80
  }

  predicate Visible(c: char) {
    0x21 <= c as int <= 0x7F
  }

  lemma {:induction false} BlanksGoLeft(before: string, s: string)
    requires Blanks(before) && (s == [] || Visible(s[0]))
    ensures TrimLeft(before + s) == s
    decreases |before|
  {
    if before == [] {
      assert before + s == s;
    } else {
      assert (before + s)[0] == before[0] && (before + s)[1..] == before[1..] + s && before[0] in before;
      assert forall c <- before[1..] :: c in before;
      BlanksGoLeft(before[1..], s);
    }
  }

  lemma {:induction false} BlanksGoRight(s: string, after: string)
    requires Blanks(after) && (s == [] || Visible(s[|s| - 1]))
    ensures TrimRight(s + after) == s
    decreases |after|
  {
    var t := s + after;
    if after == [] {
      assert t == s;
    } else {
      assert t[|t| - 1] == after[|after| - 1] && t[..|t| - 1] == s + after[..|after| - 1] && after[|after| - 1] in after;
      var init := after[..|after| - 1];
      assert forall c <- init :: c in after;
      BlanksGoRight(s, init);
    }
  }

  lemma {:induction false} FirstOfItsKind(s: string, c: char, rest: string)
    requires c !in s
    ensures IndexOf(s + [c] + rest, c) == |s|
    decreases |s|
  {
    var t := s + [c] + rest;
    if s != [] {
      assert t[0] == s[0] && t[1..] == s[1..] + [c] + rest && s[0] in s;
      FirstOfItsKind(s[1..], c, rest);
    }
  }

  /** However it is spaced, `key` before the first delimiter and `value` after it are found; blanks before
      the delimiter stay with the key. */
  lemma LineIsCut(before: string, key: string, delim: char, mid: string, value: string, after: string, comment: char)
    requires Blanks(before) && Blanks(mid) && Blanks(after) && Visible(delim)
    requires key != [] && Visible(key[0]) && key[0] != comment && delim !in key
    requires value == [] || (Visible(value[0]) && Visible(value[|value| - 1]))
    ensures ParsedLine(before + key + [delim] + (mid + value + after), delim, comment) == Pair(key, value)
  {
    var left, right := before + key, mid + value + after;
    var line := left + [delim] + right;
    assert delim !in before;
    FirstOfItsKind(left, delim, right);
    assert line[..|left|] == left && line[|left| + 1..] == right;
    BlanksGoLeft(before, key);
    assert line == before + (key + [delim] + right);
    BlanksGoLeft(before, key + [delim] + right);
    ValueIsCut(mid, value, after);
    hide TrimLeft, TrimRight, IndexOf;
  }

  lemma ValueIsCut(mid: string, value: string, after: string)
    requires Blanks(mid) && Blanks(after)
    requires value == [] || (Visible(value[0]) && Visible(value[|value| - 1]))
    ensures TrimRight(TrimLeft(mid + value + after)) == value
  {
    if value == [] {
      assert mid + value + after == (mid + after) + [];
      BlanksGoLeft(mid + after, []);
    } else {
      assert mid + value + after == mid + (value + after);
      BlanksGoLeft(mid, value + after);
      BlanksGoRight(value, after);
    }
  }

  /** A line is a comment if its first visible character says so, and otherwise needs a delimiter. */
  lemma OtherLines(before: string, comment: char, rest: string, delim: char, line: string)
    requires Blanks(before) && Visible(comment) && delim !in line && (TrimLeft(line) == [] || TrimLeft(line)[0] != comment)
    ensures ParsedLine(before + ([comment] + rest), delim, comment) == Comment
    ensures ParsedLine(line, delim, comment) == NoDelimiter
  {
    BlanksGoLeft(before, [comment] + rest);
    assert forall k | 0 <= k < |line| :: line[k] in line;
  }

  // ----- numbers -----

  predicate IsSpace(c: char) {
    c == ' ' || '\t' <= c <= '\r'
  }

  function SkipSpaces(s: string): string {
    if s != [] && IsSpace(s[0]) then SkipSpaces(s[1..]) else s
  }

  function DigitOf(c: char): nat {
    if '0' <= c <= '9' then c as int - '0' as int
    else if 'a' <= c <= 'z' then c as int - 'a' as int + 10
    else if 'A' <= c <= 'Z' then c as int - 'A' as int + 10
    else 36
  }

  /** All of `s` as digits of the base, after `sofar`. */
  function Digits(s: string, base: nat, sofar: nat): Option<nat>
    decreases |s|
  {
    if s == [] then Some(sofar)
    else if DigitOf(s[0]) >= base then None
    else Digits(s[1..], base, sofar * base + DigitOf(s[0]))
  }

  /** strtoul with base 0 on a string without sign, used up to its end: 0x is hexadecimal, 0 octal. */
  function Unsigned(s: string): Option<nat> {
    if s == [] then None
    else if |s| >= 3 && s[0] == '0' && (s[1] == 'x' || s[1] == 'X') && DigitOf(s[2]) < 16 then Digits(s[2..], 16, 0)
    else if s[0] == '0' then Digits(s[1..], 8, 0)
    else if DigitOf(s[0]) < 10 then Digits(s, 10, 0)
    else None
  }

  /** A number in a configuration key; what does not read as one byte counts as 0, and a string
      starting with 08 or 09 is taken as 8 or 9 before octal can refuse it. */
  function Atob(s: string): Byte {
    if |s| >= 2 && s[0] == '0' && s[1] == '8' then 8
    else if |s| >= 2 && s[0] == '0' && s[1] == '9' then 9
    else
      var t := SkipSpaces(s);
      if t == [] || t[0] == '-' then 0
      else match Unsigned(if t[0] == '+' then t[1..] else t)
        case Some(n) => if n < 256 then n else 0
        case None => 0
  }

  /** `c & 0x5F`, raised by 9 above '9', low four bits. */
  function HexDigit(c: char): (d: nat)
    ensures d < 16
  {
    var n := c as int / 64 % 2 * 64 + c as int % 32;
    (if n > '9' as int then n + 9 else n) % 16
  }

  function Htoi(s: string): Byte
    requires s != []
  {
    if |s| == 1 then HexDigit(s[0]) else HexDigit(s[0]) * 16 + HexDigit(s[1])
  }

  /** The value of two digits of a base. */
  lemma TwoDigitsOf(a: char, b: char, base: nat)
    requires DigitOf(a) < base && DigitOf(b) < base
    ensures Digits([a, b], base, 0) == Some(DigitOf(a) * base + DigitOf(b))
  {
    assert [a, b][1..] == [b] && [b][1..] == [];
    assert Digits([b], base, DigitOf(a)) == Some(DigitOf(a) * base + DigitOf(b));
  }

  function HexValue(c: char): int {
    if '0' <= c <= '9' then c as int - '0' as int
    else if 'a' <= c <= 'f' then c as int - 'a' as int + 10
    else if 'A' <= c <= 'F' then c as int - 'A' as int + 10
    else -1
  }

  /** Numbers in a key besides the decimal ones: hexadecimal after 0x or 0X, octal after 0, with a plus
      sign and spaces before them; a minus sign or more than a byte holds reads as 0. */
  lemma OtherNumbersAreRead(a: char, b: char)
    requires HexValue(a) >= 0 && HexValue(b) >= 0
    ensures Atob(['0', 'x', a, b]) == Atob(['0', 'X', a, b]) == Atob([' ', '+', '0', 'x', a, b]) == 16 * HexValue(a) + HexValue(b)
    ensures HexValue(a) < 8 && HexValue(b) < 8 ==> Atob(['0', a, b]) == 8 * HexValue(a) + HexValue(b)
    ensures Atob(['-', a, b]) == 0 && Atob(['0', 'x', '1', a, b]) == 0
  {
    assert DigitOf(a) == HexValue(a) && DigitOf(b) == HexValue(b);
    TwoDigitsOf(a, b, 16);
    if HexValue(a) < 8 && HexValue(b) < 8 {
      TwoDigitsOf(a, b, 8);
      assert ['0', a, b][1..] == [a, b];
    }
    assert ['0', 'x', a, b][2..] == [a, b] && ['0', 'X', a, b][2..] == [a, b];
    var s := [' ', '+', '0', 'x', a, b];
    assert s[1..] == ['+', '0', 'x', a, b] && s[1..][1..] == ['0', 'x', a, b];
    assert SkipSpaces(s) == s[1..];
    var t := ['0', 'x', '1', a, b];
    assert t[2..] == ['1', a, b] && t[2..][1..] == [a, b] && [a, b][1..] == [b] && [b][1..] == [];
    assert DigitOf('1') == 1;
    var sofar := 16 + DigitOf(a);
    assert Digits([b], 16, sofar) == Some(sofar * 16 + DigitOf(b));
    assert Digits([a, b], 16, 1) == Digits([b], 16, sofar);
    assert Digits(t[2..], 16, 0) == Digits([a, b], 16, 1);
  }

  /** Hex digits in either case. */
  lemma HexDigitsAreRead(c: char)
    ensures '0' <= c <= '9' ==> HexDigit(c) == c as int - '0' as int
    ensures 'a' <= c <= 'f' ==> HexDigit(c) == c as int - 'a' as int + 10
    ensures 'A' <= c <= 'F' ==> HexDigit(c) == c as int - 'A' as int + 10
  {
  }

  // ----- key and value -----

  /** At most `n` pieces between commas. */
  function Pieces(s: string, n: nat): (r: seq<string>)
    ensures |r| <= n
    decreases n
  {
    if n == 0 then []
    else
      var c := IndexOf(s, ',');
      if c == |s| then [s] else [s[..c]] + Pieces(s[c + 1..], n - 1)
  }

  function FromFirstSpace(key: string): string {
    var i := IndexOf(key, ' ');
    if i == |key| then key else key[i..]
  }

  function Numbers(pieces: seq<string>): seq<Byte> {
    seq(PARAMETERS, i requires 0 <= i < PARAMETERS => if i < |pieces| then Atob(pieces[i]) else 0)
  }

  function KeyParameters(key: string): seq<Byte> {
    Numbers(Pieces(FromFirstSpace(key), PARAMETERS))
  }

  function ValueBytes(value: string): seq<Byte>
    decreases |value|
  {
    if value == [] then []
    else [Htoi(value)] + (if |value| <= 3 then [] else ValueBytes(value[3..]))
  }

  /** Take one number off the text; `all` from `n` on are the pieces still to come. */
  method NextNumber(text: string, ghost all: seq<string>, n: nat) returns (b: Byte, more: string, last: bool)
    requires n < PARAMETERS && n <= |all| && all[n..] == Pieces(text, PARAMETERS - n)
    ensures n < |all| && b == Atob(all[n])
    ensures if last then |all| == n + 1 else all[n + 1..] == Pieces(more, PARAMETERS - n - 1)
  {
    var c := IndexOf(text, ',');
    last := c == |text|;
    assert all[n..] != [] && all[n] == all[n..][0];
    if last {
      b, more := Atob(text), "";
    } else {
      b, more := Atob(text[..c]), text[c + 1..];
      assert all[n + 1..] == all[n..][1..];
    }
  }

  method DecodeKey(key: string) returns (params: array<Byte>)
    ensures fresh(params) && params[..] == KeyParameters(key)
  {
    hide Atob, Pieces, IndexOf, FromFirstSpace;
    params := new Byte[PARAMETERS](_ => 0);
    var text, last, n := FromFirstSpace(key), false, 0;
    ghost var all := Pieces(text, PARAMETERS);
    while n < PARAMETERS && !last
      invariant 0 <= n <= |all| <= PARAMETERS
      invariant if last then |all| == n else all[n..] == Pieces(text, PARAMETERS - n)
      invariant forall i | 0 <= i < PARAMETERS :: params[i] == if i < n then Atob(all[i]) else 0
    {
      hide *;
      params[n], text, last := NextNumber(text, all, n);
      n := n + 1;
    }
    hide *;
    NumbersTaken(key, n, params[..]);
  }

  lemma NumbersTaken(key: string, n: nat, params: seq<Byte>)
    requires n == |Pieces(FromFirstSpace(key), PARAMETERS)| && |params| == PARAMETERS
    requires forall i | 0 <= i < PARAMETERS :: params[i] == if i < n then Atob(Pieces(FromFirstSpace(key), PARAMETERS)[i]) else 0
    ensures params == KeyParameters(key)
  {
    hide Atob, Pieces, FromFirstSpace;
  }

  method DecodeValue(value: string) returns (bytes: seq<Byte>)
    ensures bytes == ValueBytes(value)
  {
    bytes := [];
    var i := 0;
    while i < |value|
      invariant 0 <= i
      invariant ValueBytes(value) == bytes + (if i < |value| then ValueBytes(value[i..]) else [])
    {
      assert i + 3 < |value| ==> value[i..][3..] == value[i + 3..];
      bytes := bytes + [Htoi(value[i..])];
      i := i + 3;
    }
  }
}
