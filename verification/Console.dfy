/** The console the emulator drives: a grid of cells, a cursor and a current attribute.
    Only the calls the emulator makes are modelled: write at the cursor, set the cursor,
    linear fill and rectangle move. Line wrap is off, as the emulator leaves it, so the
    console cursor stops at the last column. */
module Console {
  type Attribute = bv16

  datatype Cell = Cell(ch: int, attr: Attribute)

  type Row = seq<Cell>

  const DWORD_SIZE := 0x1_0000_0000

  /** A DWORD argument: what a C conversion makes of a (possibly negative) length. */
  function Dword(n: int): (r: nat)
    ensures r < DWORD_SIZE
    ensures 0 <= n < DWORD_SIZE ==> r == n
  {
    n % DWORD_SIZE
  }

  /** `Screen` is the buffer with its own cursor; rows are numbered from the oldest scrollback line. */
  datatype Screen = Screen(width: nat, rows: seq<Row>, cx: int, cy: int, attr: Attribute) {

    ghost predicate Shaped() {
      forall r | 0 <= r < |rows| :: |rows[r]| == width
    }

    /** SetConsoleCursorPosition; the position may lie outside the buffer. */
    function MoveTo(x: int, y: int): Screen {
      this.(cx := x, cy := y)
    }

    function SetAttribute(a: Attribute): Screen {
      this.(attr := a)
    }

    /** One character of WriteConsoleW: a cell outside the buffer is not there to be written. */
    function Put(ch: int): Screen {
      this.(rows := PutCell(rows, cx, cy, Cell(ch, attr)),
            cx := if cx + 1 < width then cx + 1 else cx)
    }

    function Write(s: seq<int>): Screen
      decreases |s|
    {
      if s == [] then this else Put(s[0]).Write(s[1..])
    }

    /** FillConsoleOutputCharacter and -Attribute: `len` cells in reading order from (x, y),
        cut off at the end of the buffer; nothing from a start outside it. */
    function Fill(x: int, y: int, len: nat, cell: Cell): Screen {
      if 0 <= x < width && 0 <= y < |rows| then
        this.(rows := FillRows(rows, width, y * width + x, len, cell))
      else
        this
    }

    /** ScrollConsoleScreenBuffer with a full-width source: rows `top`..`bottom` move to `dest`,
        rows they leave and do not cover again are filled. */
    function MoveRows(top: int, bottom: int, dest: int, cell: Cell): Screen {
      this.(rows := MovedRows(rows, width, top, bottom, dest, cell))
    }
  }

  function PutCell(rows: seq<Row>, x: int, y: int, cell: Cell): seq<Row> {
    if 0 <= y < |rows| && 0 <= x < |rows[y]| then rows[y := rows[y][x := cell]] else rows
  }

  predicate InRange(width: nat, start: int, len: nat, r: int, c: int) {
    start <= r * width + c < start + len
  }

  function FillRow(row: Row, width: nat, start: int, len: nat, cell: Cell, r: int): Row {
    seq(|row|, c requires 0 <= c < |row| => if InRange(width, start, len, r, c) then cell else row[c])
  }

  function FillRows(rows: seq<Row>, width: nat, start: int, len: nat, cell: Cell): seq<Row> {
    seq(|rows|, r requires 0 <= r < |rows| => FillRow(rows[r], width, start, len, cell, r))
  }

  function BlankRow(width: nat, cell: Cell): Row {
    seq(width, _ => cell)
  }

  function MovedRow(rows: seq<Row>, width: nat, top: int, bottom: int, dest: int, cell: Cell, r: int): Row
    requires 0 <= r < |rows|
  {
    var from := r - dest + top;
    if top <= from <= bottom && 0 <= from < |rows| then rows[from]
    else if top <= r <= bottom then BlankRow(width, cell)
    else rows[r]
  }

  function MovedRows(rows: seq<Row>, width: nat, top: int, bottom: int, dest: int, cell: Cell): seq<Row> {
    seq(|rows|, r requires 0 <= r < |rows| => MovedRow(rows, width, top, bottom, dest, cell, r))
  }

  lemma {:induction false} WriteConcat(s: Screen, a: seq<int>, b: seq<int>)
    ensures s.Write(a + b) == s.Write(a).Write(b)
    decreases |a|
  {
    if a == [] {
      assert a + b == b;
    } else {
      assert (a + b)[0] == a[0];
      assert (a + b)[1..] == a[1..] + b;
      WriteConcat(s.Put(a[0]), a[1..], b);
    }
  }

  /** Every operation keeps the grid rectangular and of the same size. */
  lemma OperationsKeepShape(s: Screen, ch: int, x: int, y: int, len: nat, top: int, bottom: int, dest: int, cell: Cell)
    requires s.Shaped()
    ensures s.Put(ch).Shaped() && |s.Put(ch).rows| == |s.rows|
    ensures s.Fill(x, y, len, cell).Shaped() && |s.Fill(x, y, len, cell).rows| == |s.rows|
    ensures s.MoveRows(top, bottom, dest, cell).Shaped()
    ensures |s.MoveRows(top, bottom, dest, cell).rows| == |s.rows|
  {
  }
}
