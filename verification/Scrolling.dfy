/** What scrolling and the two line feeds do to the rows of the buffer. */
module Scrolling {
  import opened Console
  import opened Displays
  import opened Invariants

  /** Nothing but the contents of the buffer differs. */
  ghost predicate OnlyRowsDiffer(d: Display, e: Display) {
    e == d.(screen := d.screen.(rows := e.screen.rows)) && |e.screen.rows| == |d.screen.rows|
  }

  /** Rows `first` to `last` move up by `k`, blank rows come in below, and no other row changes. */
  ghost predicate MovedUp(d: Display, e: Display, first: int, last: int, k: int) {
    && OnlyRowsDiffer(d, e)
    && forall r | 0 <= r < |d.screen.rows| :: e.screen.rows[r] ==
         if r < first || last < r then d.screen.rows[r]
         else if r + k <= last && 0 <= r + k < |d.screen.rows| then d.screen.rows[r + k]
         else BlankRow(d.screen.width, d.Blank())
  }

  /** Rows `first` to `last` move down by `k`, blank rows come in above, and no other row changes. */
  ghost predicate MovedDown(d: Display, e: Display, first: int, last: int, k: int) {
    && OnlyRowsDiffer(d, e)
    && forall r | 0 <= r < |d.screen.rows| :: e.screen.rows[r] ==
         if r < first || last < r then d.screen.rows[r]
         else if first <= r - k && 0 <= r - k < |d.screen.rows| then d.screen.rows[r - k]
         else BlankRow(d.screen.width, d.Blank())
  }

  /** Scrolling up takes the margins' rows, or everything above the bottom margin without a top one. */
  function FirstUp(d: Display, windowOnly: bool): int {
    if windowOnly || d.top > 0 then d.WindowTop() + d.top else 0
  }

  /** Scrolling up by at most half its rows moves the whole region up. */
  lemma ScrollsUp(d: Display, k: int, windowOnly: bool)
    requires Sane(d) && 1 <= k
    requires 2 * k <= d.WindowTop() + d.bottom - FirstUp(d, windowOnly) + 1
    ensures MovedUp(d, d.Scroll(k, windowOnly), FirstUp(d, windowOnly), d.WindowTop() + d.bottom, k)
  {
    var first, last := FirstUp(d, windowOnly), d.WindowTop() + d.bottom;
    assert d.Scroll(k, windowOnly) == d.Move(first + k, last, first);
    UpRows(d, first, last, k);
  }

  lemma UpRows(d: Display, first: int, last: int, k: int)
    requires 1 <= k && 0 <= first && 2 * k <= last - first + 1 && last < |d.screen.rows|
    ensures MovedUp(d, d.Move(first + k, last, first), first, last, k)
  {
    var rows := d.Move(first + k, last, first).screen.rows;
    forall r | 0 <= r < |rows|
      ensures rows[r] == MovedRow(d.screen.rows, d.screen.width, first + k, last, first, d.Blank(), r)
    {
    }
  }

  lemma DownRows(d: Display, first: int, last: int, k: int)
    requires 1 <= k && 0 <= first && 2 * k <= last - first + 1 && last < |d.screen.rows|
    ensures MovedDown(d, d.Move(first, last - k, first + k), first, last, k)
  {
    var rows := d.Move(first, last - k, first + k).screen.rows;
    forall r | 0 <= r < |rows|
      ensures rows[r] == MovedRow(d.screen.rows, d.screen.width, first, last - k, first + k, d.Blank(), r)
    {
    }
  }

  /** Scrolling the window down by `k` moves the region between the margins, but for its last k - 1
      rows, which stay: by one line, which is all that is ever asked for, it moves the whole region. */
  lemma ScrollsWindowDown(d: Display, k: int)
    requires Sane(d) && 1 <= k && 2 * k <= d.bottom + 1 - k - d.top + 1
    ensures MovedDown(d, d.Scroll(-k, true), d.WindowTop() + d.top, d.WindowTop() + d.bottom + 1 - k, k)
  {
    var first, last := d.WindowTop() + d.top, d.WindowTop() + d.bottom + 1 - k;
    assert d.Scroll(-k, true) == d.Move(first, last - k, first + k);
    DownRows(d, first, last, k);
  }

  /** Scrolling everything down by `k` moves the whole buffer. */
  lemma ScrollsBufferDown(d: Display, k: int)
    requires Sane(d) && 1 <= k && 2 * k <= |d.screen.rows|
    ensures MovedDown(d, d.Scroll(-k, false), 0, |d.screen.rows| - 1, k)
  {
    assert d.Scroll(-k, false) == d.Move(0, |d.screen.rows| - 1 - k, k);
    DownRows(d, 0, |d.screen.rows| - 1, k);
  }

  /** One line, either way: the region that moves, and that nothing else changes. */
  ghost predicate ScrolledByOne(d: Display, e: Display, n: int, windowOnly: bool) {
    && (n == 1 ==> MovedUp(d, e, FirstUp(d, windowOnly), d.WindowTop() + d.bottom, 1))
    && (n == -1 && windowOnly ==> MovedDown(d, e, d.WindowTop() + d.top, d.WindowTop() + d.bottom, 1))
    && (n == -1 && !windowOnly ==> MovedDown(d, e, 0, |d.screen.rows| - 1, 1))
  }

  lemma ScrollsByOne(d: Display, n: int, windowOnly: bool)
    requires Sane(d)
    ensures ScrolledByOne(d, d.Scroll(n, windowOnly), n, windowOnly)
  {
    hide Display.Scroll, MovedUp, MovedDown;
    if n == 1 {
      ScrollsUp(d, 1, windowOnly);
    } else if n == -1 && windowOnly {
      ScrollsWindowDown(d, 1);
    } else if n == -1 {
      ScrollsBufferDown(d, 1);
    }
  }

  /** `e` differs from `d` in its rows, its row, and the console's cursor, which is where it belongs. */
  ghost predicate AtRow(d: Display, e: Display, y: int) {
    && e == d.(y := y, screen := d.screen.(rows := e.screen.rows, cx := d.x, cy := y + d.WindowTop() + d.Margin()))
    && |e.screen.rows| == |d.screen.rows|
  }

  /** Reverse line feed: up a row and no row changes, or, from row 0, the rows between the margins down by one. */
  ghost predicate ReversedLine(d: Display, e: Display) {
    if d.y > 0 then AtRow(d, e, d.y - 1) && e.screen.rows == d.screen.rows
    else
      && AtRow(d, e, 0)
      && MovedDown(d, d.(screen := d.screen.(rows := e.screen.rows)), d.WindowTop() + d.top, d.WindowTop() + d.bottom, 1)
  }

  lemma ReverseLinefeedMoves(d: Display)
    requires Sane(d)
    ensures ReversedLine(d, d.ReverseLinefeed())
  {
    if d.y == 0 {
      ScrollsWindowDown(d, 1);
      ScrollIsSane(d, -1, true);
      hide Display.Scroll;
    }
  }

  /** Whether a line feed from row `y` scrolls. */
  predicate FeedScrolls(d: Display) {
    (d.origin || d.top <= d.y <= d.bottom) && d.y >= d.bottom - d.top
  }

  /** Line feed: down a row and no row changes, or up by one what lies above the bottom margin, the
      cursor then being there; below the bottom margin it stays. */
  ghost predicate FedLine(d: Display, e: Display) {
    if FeedScrolls(d) then
      && AtRow(d, e, d.bottom)
      && MovedUp(d, d.(screen := d.screen.(rows := e.screen.rows)), FirstUp(d, false), d.WindowTop() + d.bottom, 1)
    else
      && AtRow(d, e, if d.origin || d.y < d.bottom then d.y + 1 else d.y)
      && e.screen.rows == d.screen.rows
  }

  lemma LinefeedMoves(d: Display, newLine: bool)
    requires Sane(d)
    ensures FedLine(if newLine then d.(x := 0) else d, d.Linefeed(newLine))
  {
    var e := if newLine then d.(x := 0) else d;
    if FeedScrolls(e) {
      ScrollingFeed(e);
    } else {
      PlainFeed(e);
    }
    assert d.Linefeed(newLine) == e.Linefeed(false);
    hide Display.Linefeed, FedLine;
  }

  lemma ScrollingFeed(d: Display)
    requires Sane(d) && FeedScrolls(d)
    ensures FedLine(d, d.Linefeed(false))
  {
    ScrollsUp(d, 1, false);
    var e := d.Scroll(1, false);
    assert e == d.(screen := d.screen.(rows := e.screen.rows));
    assert d.Linefeed(false) == e.(y := d.bottom).SetCursor();
    hide Display.Scroll, Display.Linefeed, MovedUp;
  }

  lemma PlainFeed(d: Display)
    requires Sane(d) && !FeedScrolls(d)
    ensures FedLine(d, d.Linefeed(false))
  {
    hide Display.Scroll;
  }

  /** A line feed that does not scroll undoes a reverse one that did not, and puts the console's cursor back. */
  lemma FeedUndoesReverse(d: Display)
    requires Sane(d) && d.y > 0 && !FeedScrolls(d.(y := d.y - 1)) && (d.origin || d.y - 1 < d.bottom)
    ensures d.ReverseLinefeed().Linefeed(false) == d.SetCursor()
  {
    var e := d.ReverseLinefeed();
    ReverseLinefeedMoves(d);
    assert Sane(e);
    LinefeedMoves(e, false);
    hide Display.Linefeed, Display.ReverseLinefeed;
  }
}
