/** What draining the output buffer in runs of characters has in common with writing them one at a time. */
module Draining {
  import opened Console
  import opened Displays

  /** Characters that fit on the line only move the column. */
  lemma {:induction false} FittingCharacters(d: Display, s: seq<int>)
    requires -0x8000 <= d.x && d.x + |s| <= d.w <= MAX_SHORT
    ensures EmitAll(d, s) == d.(screen := d.screen.Write(s), x := d.x + |s|)
    decreases |s|
  {
    if s != [] {
      assert [s[0]][1..] == [];
      assert d.screen.Write([s[0]]) == d.screen.Put(s[0]);
      FittingCharacters(d.Emit(s[0]), s[1..]);
    }
  }

  /** A run that fits can be written with one call. */
  lemma RunIsEmitted(d: Display, s: seq<int>, n: nat)
    requires -0x8000 <= d.x && n <= |s| && d.x + n <= d.w <= MAX_SHORT
    ensures EmitAll(d, s) == EmitAll(d.WriteChars(s[..n]), s[n..])
  {
    hide *;
    assert s[..n] + s[n..] == s;
    RunIsOneWrite(d, s[..n]);
    EmitAllConcat(d, s[..n], s[n..]);
  }

  lemma RunIsOneWrite(d: Display, s: seq<int>)
    requires -0x8000 <= d.x && d.x + |s| <= d.w <= MAX_SHORT
    ensures EmitAll(d, s) == d.WriteChars(s)
  {
    FittingCharacters(d, s);
    hide EmitAll, Screen.Write;
  }

  /** A pending wrap is settled by the first character, whoever comes next. */
  lemma WrapComesFirst(d: Display, s: seq<int>)
    requires s != [] && 1 <= d.w && d.x >= d.w && d.wrap
    ensures EmitAll(d, s) == EmitAll(d.Linefeed(true), s)
  {
    var e := d.Linefeed(true);
    assert e.x == 0 && e.w == d.w;
    assert d.Emit(s[0]) == e.Emit(s[0]);
  }

  lemma OverwriteInPlace(s: Screen, a: int, b: int)
    ensures s.Put(a).MoveTo(s.cx, s.cy).Put(b) == s.Put(b)
  {
    var p, q := Cell(a, s.attr), Cell(b, s.attr);
    if 0 <= s.cy < |s.rows| && 0 <= s.cx < |s.rows[s.cy]| {
      assert s.rows[s.cy][s.cx := p][s.cx := q] == s.rows[s.cy][s.cx := q];
      assert PutCell(PutCell(s.rows, s.cx, s.cy, p), s.cx, s.cy, q) == PutCell(s.rows, s.cx, s.cy, q);
    }
  }

  lemma WriteOne(s: Screen, ch: int)
    ensures s.Write([ch]) == s.Put(ch)
  {
    assert [ch][1..] == [];
  }

  /** Without wrap each character overwrites the one before it in the last column. */
  lemma {:induction false} OnlyTheLastStays(d: Display, s: seq<int>)
    requires s != [] && 1 <= d.w <= MAX_SHORT && d.x >= d.w && !d.wrap
    ensures EmitAll(d, s) == d.At(d.w - 1, d.y).WriteChars([s[|s| - 1]])
    decreases |s|
  {
    var first, last := s[0], s[|s| - 1];
    var e := d.At(d.w - 1, d.y);
    assert d.Emit(first) == e.WriteChars([first]);
    if |s| == 1 {
      assert s[1..] == [];
    } else {
      OnlyTheLastStays(e.WriteChars([first]), s[1..]);
      WriteOne(e.screen, first);
      WriteOne(e.screen, last);
      WriteOne(e.WriteChars([first]).At(d.w - 1, d.y).screen, last);
      OverwriteInPlace(e.screen, first, last);
    }
  }
}
