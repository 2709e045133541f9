# Verified models of three ipmiutil cores

This project states and proves what three stateful cores of ipmiutil do:

- **the terminal emulator** behind the serial-over-LAN console (`util/AnsiTerm.cpp`, `util/AnsiTerm.h`),
- **the E-keying analyzer** for PICMG/AMC FRU records (`util/iekanalyzer.c`, `util/iekanalyzer.h`, and the
  second decoder of the same record in `util/ifru_picmg.c`),
- **the save and restore of a BMC's LAN parameters** as text (`util/iconfig.c`, with the number readers of
  `util/subs.c`).

`dafny verify dfyconfig.toml` checks the whole project.

## The terminal emulator

`Console` is the console as a grid of cells with a cursor and an attribute: write at the cursor, set the cursor,
fill in reading order, move whole rows. `Displays` adds the emulator's tracked cursor (column equal to the width
means a pending wrap), saved cursor, margins and modes. `Terminal` is the byte-driven state machine on top:
UTF-8 collection, escape sequences, control sequences with up to 16 parameters in C `int` arithmetic, character
sets, and the output buffer, whose capacity is a field so that a capacity of one is the emulator that writes at once.

`AnsiTerm` is the emulator as the class it is, with fixed arrays for the output, the parameters and the UTF-8 bytes
and the loops of the source. Each method is proved to take the abstraction of the object (`View`, `Disp`) where the
function of the state machine takes it. The theorems are about those functions:

- `Buffering`: drained, the buffered emulator is the one that writes at once; cutting the bytes into calls makes no
  difference, provided no tab or unlisted control byte arrives inside an escape or control sequence; and wherever the
  terminal is, a call boundary after a byte is invisible exactly when that byte leaves nothing waiting inside one.
- `Draining`: the run-at-a-time drain loop equals emitting one character at a time, wrap or no wrap.
- `Invariants`: bounds on cursor, margins, counts and UTF-8 state, and agreement of the console's own cursor with
  the tracked one, over every run of bytes and resizes from a newly opened console. One byte keeps them exactly when
  it is not a motion, position or margin sequence whose own parameter is negative and far enough to leave the window;
  sequences whose parameters stay below 2^31 never do. `ControlSequences` shows one that does.
- `Scrolling`: which rows move where, for both directions, and what the two line feeds do to them.
- `TerminalLog`: from a reset, printing lines leaves the last rows of scrollback, lines and blank rows.
- `Erasing`: the two partial erases split the window, exactly unless the cursor is a pending wrap in origin mode
  below a top margin, which a program can bring about; the two partial line erases share the cursor cell, and split
  the line exactly when there is none.
- `ControlSequences`: what the parser makes of the parameters of a sequence, whatever their number; an unrecognised
  control sequence is shown character for character.
- `Effects`: what every control byte, escape sequence and control sequence function does, over the bytes sent and in
  terms of cursor, margins, modes, attribute and cells.
- `Utf8Text`: UTF-8 text comes out as itself, and no byte of a malformed stream is lost or reordered.

## The E-keying analyzer

`Descriptors` holds the channel, link and port descriptors as bit fields, decoded two ways. `AmcRecords` reads and
writes the AMC point-to-point record with its derived link count. `RecordLists` is the doubly linked list of
multi-records with its nodes on the heap, and the reading of a file into it. `CarrierWalk` and `PhysicalCheck` walk
the carrier record and decide whether it joins two modules' lanes; `LinkMatching` is the nested search over links,
with the function statics it depends on, its report and its return value.

## The configuration text

`ConfigLines` cuts a line in place with moving pointers and decodes key and value. `SavedLines` prints lines and
proves that they read back. `ConfigReplay` replays the lines onto the parameter store of a BMC; `ConfigSave` is the
loop that saves a channel, and the theorem that restoring what it printed brings the values back.

## Where the code and its own description differ

The model follows the code:

- In origin mode a line feed puts the cursor on the absolute bottom margin, and with a top margin the scroll test
  compares with the distance of the margins (`util/AnsiTerm.cpp:1203-1208`).
- Scrolling the window down by k > 1 lines would leave the last k - 1 rows of the region where they are; only k = 1 is
  ever asked for (`util/AnsiTerm.cpp:931-944`).
- A byte that no `ESC #` function is listed for stays in that state (`util/AnsiTerm.cpp:762-768`).
- "Erase beginning to cursor" includes the cursor cell in a line and excludes it in the display
  (`util/AnsiTerm.cpp:951-1062`).
- Set Mode looks at parameter 0 only and asserts that it knows the mode (`util/AnsiTerm.cpp:1789-1858`).
- A "cursor up" parameter that a C `int` holds as a negative number moves the cursor down, out of the window if it is
  large enough (`ControlSequences.OverflowLeavesTheWindow`).
- A parameter of 8 or 9 with a leading zero, right after the keyword's space, reads as 0: the special case for `08`
  and `09` looks at the start of the text, which there is the space, and octal refuses the digit
  (`util/subs.c:479-520`, `util/iconfig.c:2387-2401`).
- The statics that hold the first links' channel ids are only set when those links are themselves compared. A search
  that begins (in either group class) with another pair counts channels from what an earlier call left, or from zero.
  That is wrong exactly when those are other ids than the first links'; ids that count from 0 are safe from a fresh
  start (`util/iekanalyzer.c:1630-1646`, and once more for grouped links; `LinkMatching.ChannelsAreRightExactly`).
- A multi-record with the last-record bit but no data does not end the reading (`util/iekanalyzer.c:3960-3990`,
  `RecordLists.BitEndsExactlyWithData`).
- A missing destination type makes the save loop go on with the destination addresses from that row, so the addresses
  before it are not saved, though they are there (`util/iconfig.c:2182-2228`, `ConfigSave.DestinationIsSavedExactly`,
  `ConfigSave.MissingTypeLosesAnAddress`).
- After an IP address line gratuitous ARP stays off on the GCM channel, whatever its own line says
  (`util/iconfig.c:2421`, `util/iconfig.c:2429-2440`).

## Model

| member | source | states |
|---|---|---|
| AnsiTerm.AnsiTerm.constructor | util/AnsiTerm.cpp:213-228 | a new emulator holds its representation invariant, is in the normal state with an empty buffer, and shows the reset display of a console whose window was moved to its last rows; on a console of proper size it is in the bounds every run keeps, whatever its uninitialised parameters hold |
| AnsiTerm.AnsiTerm.SetCursorPosition | util/AnsiTerm.cpp:894-902 | the console cursor is window origin plus tracked cursor, plus the top margin in origin mode |
| AnsiTerm.AnsiTerm.ScrollDisplay | util/AnsiTerm.cpp:904-948 | in the bounds, scrolling by one line moves exactly the rows of its region by one, blanks the row left free, and changes no other row: upwards the margins' rows (or all above the bottom margin without a top one), downwards the margins' rows or the whole buffer |
| Scrolling.ScrollsUp | util/AnsiTerm.cpp:916-928 | scrolling up by up to half the region's rows moves the whole region up by as many and blanks the rest, with and without a top margin |
| Scrolling.ScrollsWindowDown | util/AnsiTerm.cpp:929-944 | scrolling the window down by k moves the region but for its last k - 1 rows, which stay; by one line it is the whole region |
| Scrolling.ScrollsBufferDown | util/AnsiTerm.cpp:929-944 | scrolling everything down by k moves the whole buffer |
| AnsiTerm.AnsiTerm.EraseLine | util/AnsiTerm.cpp:950-1003 | in the bounds, exactly the part of the cursor row that the kind asks for becomes blank (from the cursor on, up to and including it, or all; all or nothing with a wrap pending), and no other cell changes |
| AnsiTerm.AnsiTerm.EraseDisplay | util/AnsiTerm.cpp:1005-1062 | in the bounds, exactly the cells that the kind asks for become blank (from the cursor on, those before it, or the window; with a wrap pending whole rows, counted from the window's top in origin mode too), and no other cell changes |
| AnsiTerm.AnsiTerm.OutputText | util/AnsiTerm.cpp:1064-1125 | draining any buffer ends as emitting its characters one at a time does, empties the buffer, returns the count, and terminates |
| AnsiTerm.AnsiTerm.ProcessBackspace | util/AnsiTerm.cpp:1127-1144 | one column left, from a pending wrap to the last column |
| AnsiTerm.AnsiTerm.ProcessTab | util/AnsiTerm.cpp:1146-1178 | spaces up to the next multiple of eight or the last column, after a pending wrap is settled |
| AnsiTerm.AnsiTerm.ProcessReverseLinefeed | util/AnsiTerm.cpp:1180-1193 | in the bounds, from row 0 the rows between the margins move down by one, else the cursor goes up a row and no row changes; the column stays and the console's cursor is where it belongs |
| Scrolling.FeedUndoesReverse | util/AnsiTerm.cpp:1180-1221 | a line feed that does not scroll undoes a reverse line feed that did not |
| AnsiTerm.AnsiTerm.ProcessLinefeed | util/AnsiTerm.cpp:1195-1221 | with the source's tests in and out of origin mode: in the bounds, the rows above the bottom margin move up by one and the cursor is on the bottom margin, or the cursor goes down a row, or stays below the bottom margin |
| AnsiTerm.AnsiTerm.AddOutputData | util/AnsiTerm.h:213-221 | the character is appended, and a full buffer is drained, so there is always room for the next |
| AnsiTerm.AnsiTerm.DisplayCSI | util/AnsiTerm.cpp:794-817 | the text of an unrecognised sequence is added: caret, bracket, printed parameters, final byte |
| AnsiTerm.AnsiTerm.ProcessHVP | util/AnsiTerm.cpp:1454-1500 | the cursor at the clamped one-based position, whatever the parameters held; `Effects.PositionGoesThere` says which row and column that is |
| AnsiTerm.AnsiTerm.ProcessDECSTBM | util/AnsiTerm.cpp:1305-1347 | margins set and cursor home, or nothing when they do not describe a region of the window |
| AnsiTerm.AnsiTerm.ProcessCUU | util/AnsiTerm.cpp:1408-1419 | up by the parameter (1 if it is 0), not above row 0 |
| AnsiTerm.AnsiTerm.ProcessCUD | util/AnsiTerm.cpp:1376-1387 | down by the parameter, not below the last row, or the bottom margin in origin mode |
| AnsiTerm.AnsiTerm.ProcessCUF | util/AnsiTerm.cpp:1389-1400 | right by the parameter, not past the last column |
| AnsiTerm.AnsiTerm.ProcessCUB | util/AnsiTerm.cpp:1363-1374 | left by the parameter, not before column 0 |
| AnsiTerm.AnsiTerm.ProcessSGR | util/AnsiTerm.cpp:1656-1786 | the attribute after all parameters in turn, given to the console |
| AnsiTerm.AnsiTerm.ProcessSM | util/AnsiTerm.cpp:1788-1858 | the loop that looks at parameter 0 every time ends as setting that one mode once |
| AnsiTerm.AnsiTerm.ProcessRM | util/AnsiTerm.cpp:1534-1601 | every listed mode is reset in turn |
| AnsiTerm.AnsiTerm.ResetTerm | util/AnsiTerm.cpp:819-862 | the reset state, with the buffer dropped and the window blank |
| AnsiTerm.AnsiTerm.WindowSizeChanged | util/AnsiTerm.cpp:266-380 | the new sizes, and a reset |
| AnsiTerm.AnsiTerm.ControlByte | util/AnsiTerm.cpp:509-572 | what each control byte does once the buffer is drained |
| AnsiTerm.AnsiTerm.Utf8Byte | util/AnsiTerm.cpp:617-659 | a continuation byte is collected and completes the character or not; any other byte puts the collected ones and itself on the screen one by one |
| AnsiTerm.AnsiTerm.EscapeByte | util/AnsiTerm.cpp:661-690 | the escape table: begin a longer sequence, run a function, or show the unknown byte |
| AnsiTerm.AnsiTerm.CsiByte | util/AnsiTerm.cpp:692-749 | prefix, digits in C int arithmetic, separators, and dispatch with at least one parameter |
| AnsiTerm.AnsiTerm.ProcessOutput | util/AnsiTerm.cpp:498-792 | one call takes the state where the state machine takes it byte by byte and ends with the buffer drained |
| Displays.EmitAllConcat | util/AnsiTerm.cpp:1064-1125 | emitting two texts in turn is emitting their concatenation |
| Draining.RunIsEmitted | util/AnsiTerm.cpp:1064-1125 | a run that fits on the line, written with one call, is those characters emitted one by one |
| Draining.WrapComesFirst | util/AnsiTerm.cpp:1078-1086 | with a wrap pending, wrapping before the whole run is wrapping before its first character |
| Draining.OnlyTheLastStays | util/AnsiTerm.cpp:1087-1102 | with autowrap off and the line full, any text leaves only its last character, in the last column |
| Buffering.StepAgrees | util/AnsiTerm.cpp:498-792 | one byte takes the buffered terminal where it takes the immediate one, leaving no character waiting inside a sequence |
| Buffering.BufferedRefinesImmediate | util/AnsiTerm.cpp:498-792 | after any bytes that keep tabs and unlisted control bytes out of sequences, the drained state is that of the terminal that writes every character at once |
| Buffering.ChunkingDoesNotShow | util/AnsiTerm.cpp:498-792 | any cutting of such bytes into calls ends in the same state: screen, cursor, attribute and parser |
| Buffering.SplittingDoesNotShow | util/AnsiTerm.cpp:498-792 | two calls equal one call with both texts |
| Buffering.SplitSafeExactlyWhenNothingWaits | util/AnsiTerm.cpp:498-572 | between calls and in every parser state, another call boundary after a byte changes nothing for any next byte, if and only if the byte is not, inside an escape or control sequence, an unlisted control byte or a tab that moves (from a pending wrap too) |
| Buffering.WaitingCharacterShows | util/AnsiTerm.cpp:498-572 | otherwise "next line" in an escape sequence and "cursor position" in a control sequence end in another column in the same call than in the next one |
| Buffering.LeavesItsColumn | util/AnsiTerm.cpp:1064-1125 | printing less than a line, or one character, never ends in the column it started in, with autowrap and without |
| Invariants.StepKeepsSane | util/AnsiTerm.cpp:498-792 | from the bounds, and whatever the parameters hold, one byte keeps them if and only if it is not a motion, position or margin function whose own parameter is negative and, as a SHORT, reaches outside the window |
| Invariants.RunKeepsSane | util/AnsiTerm.cpp:498-792 | cursor and saved cursor in range, margins ordered, output count below the buffer size, at most 16 parameters, UTF-8 count below its size, after every byte of a run if and only if no byte of it leaves the window |
| Invariants.SmallParametersNeverLeave | util/AnsiTerm.cpp:707-735 | no run whose digits keep every parameter below 2^31 leaves the window, so it keeps every bound, though cells not read yet may hold anything |
| Invariants.EveryRunIsSane | util/AnsiTerm.cpp:498-792 | the same over any run of calls and resizes, with the console cursor at the tracked cursor unless a wrap is pending |
| Invariants.ResizeIsSane | util/AnsiTerm.cpp:266-380 | a resize ends in the bounds of the new size, whatever the margins and cursor were |
| Invariants.OpenedIsSane | util/AnsiTerm.cpp:213-228 | a terminal opened on a console of proper size is in the bounds, with any contents of its parameters: where every run starts |
| Invariants.EmitAllIsGood | util/AnsiTerm.cpp:1064-1125 | printing keeps the bounds and the agreement of the two cursors |
| Invariants.LinefeedIsGood | util/AnsiTerm.cpp:1195-1221 | so does a line feed, in and out of origin mode |
| Invariants.CsiFunctionIsSaneExactly | util/AnsiTerm.cpp:1305-1500 | from the bounds and with any parameters a control sequence function keeps them if and only if it is not such a function with such a parameter |
| TerminalLog.WriteFits | util/AnsiTerm.cpp:1104-1113 | writing text that fits changes exactly its cells of the row |
| TerminalLog.LineIsShown | util/AnsiTerm.cpp:1064-1125 | one line of at most a window's width and its line feed move the log on by one line; a full line makes no extra row |
| TerminalLog.TerminalIsALog | util/AnsiTerm.cpp:819-862 | from a reset on any console of proper size, any list of lines leaves the last rows of (scrollback, lines, at least one blank row), the cursor in column 0 of row min(k, H - 1), and the console cursor there |
| Erasing.AllTouchesTheWindow | util/AnsiTerm.cpp:1005-1062 | "erase all" marks exactly the cells of the window |
| Erasing.BeginningTouches | util/AnsiTerm.cpp:1005-1062 | "beginning to cursor" marks exactly the window cells before the cursor, the whole row for a pending wrap |
| Erasing.EraseDisplayErases | util/AnsiTerm.cpp:1005-1062 | the cells each form of Erase in Display blanks, a DWORD length that wraps around included, and that no other cell changes |
| Erasing.ErasesSplitExactlyUnlessMisplaced | util/AnsiTerm.cpp:1005-1062 | the two partial erases are disjoint and together erase all, if and only if the cursor is not a pending wrap in origin mode with a top margin above a row that is not the last |
| Erasing.BytesMisplaceTheCursor | util/AnsiTerm.cpp:1005-1062 | in a window of three rows or more ESC[2;3r, ESC[?6h and a full line of text bring about such a cursor, so the erases do not split |
| Erasing.EraseLineErases | util/AnsiTerm.cpp:950-1003 | the cells each form of Erase in Line blanks, and that no other cell changes |
| Erasing.LineErasesSplitExactly | util/AnsiTerm.cpp:950-1003 | the two partial line erases are disjoint and together erase the line if and only if a wrap is pending or the row lies below the buffer in origin mode |
| Erasing.EraseSequenceErases | util/AnsiTerm.cpp:1435-1445 | ESC [ k J and ESC [ k K blank exactly those cells for k = 0 (from the cursor on), 1 (up to it) and 2 (all), and do nothing for other k |
| ControlSequences.DigitsAccumulate | util/AnsiTerm.cpp:707-722 | feeding the decimal form of any number leaves that number, as a C int holds it, in the parameter |
| ControlSequences.ArgumentsArrive | util/AnsiTerm.cpp:692-749 | the parameters of a sequence arrive in order and nothing else changes: given numbers as C ints, those left out as 0, the first sixteen of any number |
| ControlSequences.SequenceIsRead | util/AnsiTerm.cpp:661-749 | from any state a control sequence ends in its function with those parameters, or in showing it, and in the normal state |
| ControlSequences.UnknownSequenceIsEchoed | util/AnsiTerm.cpp:692-817 | ESC [ p1;...;pk F with a final byte that is not one of ABCDHJKcfghlmnqrxy shows as ^[[p1;...;pkF, from any state, ending in the normal state |
| ControlSequences.OverflowLeavesTheWindow | util/AnsiTerm.cpp:1408-1419 | a cursor-up parameter that wraps to a negative C int moves the cursor down by it, past the last row when it is large enough |
| Effects.PositionGoesThere | util/AnsiTerm.cpp:1454-1500 | ESC [ r ; c H or f puts both cursors at column min(c, W) and row min(r, H) of the window, or row min(r, bottom - top + 1) of the margins in origin mode, counted from 1; a parameter that is 0 or left out is 1, and nothing else changes |
| Effects.MotionGoesThere | util/AnsiTerm.cpp:1363-1419 | ESC [ n A, B, C, D goes n up, down, right, left, but not past the first or last row or column, or the bottom margin in origin mode |
| Effects.MarginsAreSetExactly | util/AnsiTerm.cpp:1305-1347 | ESC [ p ; q r makes rows p to q the scroll region and homes the cursor if and only if p < q <= H (q left out is H) |
| Effects.ModeIsSet | util/AnsiTerm.cpp:1788-1858 | ESC [ ? p h turns that one of modes 1 to 9 and 25 on, ESC [ 20 h that one; origin mode also homes the cursor and the saved cursor, and further parameters are ignored |
| Effects.AssertsExactly | util/AnsiTerm.cpp:1788-1858 | Set Mode asserts if and only if its first parameter is no mode |
| Effects.ModesAreReset | util/AnsiTerm.cpp:1534-1601 | ESC [ ? p1;...;pk l (or without the mark) turns exactly the listed modes off, and homes the cursor if origin mode is one of them |
| Effects.AttributeIsPainted | util/AnsiTerm.cpp:1656-1786 | ESC [ p1;...;pk m changes the attribute parameter by parameter: which colour, intensity, underscore and reverse bits are set, and that no other changes |
| Effects.NothingHappens | util/AnsiTerm.cpp:95-116 | c, g, n, q, x and y change nothing |
| Effects.CursorIsKept | util/AnsiTerm.cpp:1515-1608 | ESC 7 and s save column and row of the cursor, ESC 8 and u go back there |
| Effects.SavedCursorComesBack | util/AnsiTerm.cpp:1515-1608 | wherever "cursor position" sends the cursor after ESC 7, ESC 8 brings it back |
| Effects.LinesAreFed | util/AnsiTerm.cpp:1502-1527 | ESC D and E feed a line, E from column 0, and ESC M feeds one in reverse |
| Effects.EscapeWithoutEffect | util/AnsiTerm.cpp:64-93 | ESC =, >, H, Z and ESC # 3, 4, 5, 6, 8 change nothing |
| Effects.TerminalStartsOver | util/AnsiTerm.cpp:819-862 | ESC c and a change of size leave the first modes and character sets, no margins, the cursor home, a blank window and the scrollback as it was |
| Effects.OpensAtTheCursor | util/AnsiTerm.cpp:352-375 | the rows of the console are moved so that its cursor's row becomes the window's first |
| Effects.UnknownEscapeIsShown | util/AnsiTerm.cpp:661-690 | any other byte after ESC shows as ^[ and itself |
| Effects.UnknownDecIsShown | util/AnsiTerm.cpp:751-769 | any other byte after ESC # shows as ^[# and itself, and the parser stays where it is |
| Effects.SetIsChosen | util/AnsiTerm.cpp:1610-1654 | ESC ( and ) with B or 0 choose ASCII or the graphics for G0 and G1, and with others nothing |
| Effects.TextIsShown | util/AnsiTerm.cpp:603-622 | with the graphics selected 5F to 7E show their glyphs, and all other text shows as itself |
| Effects.ControlActs | util/AnsiTerm.cpp:503-572 | in every parser state: what is ignored, where backspace and return leave the cursor, the shifts, and ESC |
| Effects.LinefeedFeeds | util/AnsiTerm.cpp:530-534 | LF, VT and FF feed a line, from column 0 with mode 20 |
| Effects.StrayShows | util/AnsiTerm.cpp:568-571 | any other control byte shows its glyph |
| Effects.TabGoesToItsStop | util/AnsiTerm.cpp:1146-1178 | a tab leads with blanks to the next multiple of 8 or the last column, after a line feed from column 0 if a wrap is pending, and does nothing there with autowrap off |
| Utf8Text.TerminalScans | util/AnsiTerm.cpp:574-659 | on bytes without control characters the terminal shows the characters a direct left-to-right reading of the bytes gives, and keeps the bytes that reading has left over |
| Utf8Text.ScanLosesNothing | util/AnsiTerm.cpp:617-659 | the source bytes of what is shown, with the bytes left over, are the input |
| Utf8Text.ScanUndoesEncode | util/AnsiTerm.cpp:579-659 | UTF-8 (section 3 of RFC 3629) of any text of 0x20-0x7E and 0x80-0xFFFF scans to that text, nothing left over |
| Utf8Text.Utf8RoundTrip | util/AnsiTerm.cpp:579-659 | with the ASCII set selected, such a text comes out as itself and the terminal is back in the normal state |
| Utf8Text.NothingIsLost | util/AnsiTerm.cpp:617-659 | malformed or not, every byte is in the source of one shown character or pending, in order |
| Descriptors.ChannelDecodersAgree | util/ifru_picmg.c:289-300 | shift-and-mask and packed bit fields read the same channel from any three bytes |
| Descriptors.LinkDecodersAgree | util/ifru_picmg.c:301-316 | they read the same link from any five bytes |
| Descriptors.ChannelRoundTrip | util/iekanalyzer.h:441-455 | a written channel descriptor reads back |
| Descriptors.PortLayout | util/iekanalyzer.h:415-427 | where resource, remote port and local port lie in the three bytes of a connection |
| Descriptors.LinkRoundTrip | util/iekanalyzer.h:457-499 | a written link descriptor reads back |
| Descriptors.ChannelReservedBits | util/iekanalyzer.h:441-455 | reading and writing a channel clears the reserved bits and nothing else |
| Descriptors.LinkReservedBits | util/iekanalyzer.h:457-499 | reading and writing a link clears the reserved bits and nothing else |
| AmcRecords.StaysInsideExactlyWhenRoomy | util/iekanalyzer.c:2244-2307 | the reader, which checks nothing, stays inside the record if and only if the announced GUIDs and channels fit, and then stops less than one link before the end |
| AmcRecords.CreateAmcP2pRecord | util/iekanalyzer.c:2244-2307 | for every record, too short ones included, the allocated arrays hold the GUIDs, channels and links at their places in memory; success if and only if there is a link |
| AmcRecords.ReadingUndoesWriting | util/iekanalyzer.c:2244-2307 | any record that fits, written out, reads as itself, with the derived link count exact and the end at the record's length, whatever the memory holds beyond |
| AmcRecords.ShowAmcP2p | util/ifru_picmg.c:270-318 | what the FRU display reads from the same memory, for every record: the channel loop cut off at the length, the link loop until it |
| AmcRecords.ReadersAgreeExactlyOnWholeLinks | util/ifru_picmg.c:270-318 | for every memory the two readers get the same channels if and only if the last one starts inside the record, and the same links if and only if the length leaves no partial link or, where the announced parts do not fit, the derived count comes to zero |
| RecordLists.RecordList.Add | util/iekanalyzer.c:4017-4035 | the record is appended and the list stays doubly linked |
| RecordLists.RecordList.Remove | util/iekanalyzer.c:4056-4069 | exactly that record is gone, its neighbours or the ends closed over it |
| RecordLists.RecordList.Unlink | util/iekanalyzer.c:4056-4069 | the pointers that change, and that no other does |
| RecordLists.RecordList.RemoveAll | util/iekanalyzer.c:794-800 | removing the head until there is none terminates on the empty list |
| RecordLists.RecordList.Perform | util/iekanalyzer.c:4017-4069 | any legal sequence of additions and removals keeps the list well formed with the specified contents |
| RecordLists.ContentsAreAdded | util/iekanalyzer.c:4017-4069 | those contents are the added records in order, minus the removed ones |
| RecordLists.ReadRecords | util/iekanalyzer.c:3956-3992 | the list built is the records read from the bytes, one that their end cuts short included; complete if and only if the reading ends before they run out |
| RecordLists.FileToStructure | util/iekanalyzer.c:3924-3996 | the reading starts at eight times the offset byte, and the list is what is read there; no offset, no records |
| RecordLists.FileReadsUpToLast | util/iekanalyzer.c:3956-3992 | a file of records reads as its non-empty records in file order up to and including the first with data and the last-record bit, whatever follows |
| RecordLists.FileIsRead | util/iekanalyzer.c:3940-3992 | a file whose byte 5 counts the eight-byte units before its records reads as the non-empty ones up to the first with data and bit 7 of format |
| RecordLists.BitEndsExactlyWithData | util/iekanalyzer.c:3960-3990 | in a file of records the first one with the last-record bit ends the reading if and only if it has data |
| RecordLists.RecordsArePassed | util/iekanalyzer.c:3956-3992 | records that do not stop the reading are all read, and it goes on behind them |
| RecordLists.FileWithoutLastRunsOut | util/iekanalyzer.c:3956-3992 | without such a record all the non-empty ones are read and the bytes run out |
| CarrierWalk.GetResourceDescriptor | util/iekanalyzer.c:2329-2344 | the port descriptors copied out, and the index after them |
| CarrierWalk.DisplayCarrierConnectivity | util/iekanalyzer.c:839-908 | the resources the display walk visits and the offset it ends at; it terminates |
| CarrierWalk.WalksGoOnExactly | util/iekanalyzer.c:1415-1472 | the physical check takes another resource if and only if a byte is left, the display walk if and only if five are |
| CarrierWalk.CheckWalkVisitsAll | util/iekanalyzer.c:1415-1472 | on a well-formed record the walk of the physical check visits every resource and ends at the length |
| CarrierWalk.DisplayWalkVisitsAllExactly | util/iekanalyzer.c:861-905 | the display walk visits the same resources and ends at the same place if and only if the last resource has a port |
| PhysicalCheck.SidesMirror | util/iekanalyzer.c:1801-1901 | what the comparison of a carrier resource decides on swapped local and remote ports is what the comparison of an AMC resource decides, and the other way round |
| PhysicalCheck.CompareFromAmc | util/iekanalyzer.c:1810-1854 | the comparison for AMC resources is true if and only if consecutive ports connect every lane up to the first disabled one, the first module's ports being the local ones |
| PhysicalCheck.CompareFromCarrier | util/iekanalyzer.c:1855-1898 | the one written out for carrier resources, if and only if they connect them with the first module's ports remote |
| PhysicalCheck.CompareChannelDescriptor | util/iekanalyzer.c:1801-1901 | the resource id decides which of the two comparisons speaks |
| PhysicalCheck.SearchPorts | util/iekanalyzer.c:1474-1560 | OK if and only if there is no port, lane 0 is disabled, or some port index lines up and joins the two modules |
| PhysicalCheck.Classify | util/iekanalyzer.c:1423-1465 | whether the walk settles on a resource, and whether the resource spoils the verdict |
| PhysicalCheck.CheckPhysicalConnectivity | util/iekanalyzer.c:1400-1579 | OK if and only if the walk settles on a resource, with no spoiling one before it, that accepts the channels |
| PhysicalCheck.VerdictOnWellFormed | util/iekanalyzer.c:1400-1579 | on a well-formed record that is a statement about the resources it was written from |
| PhysicalCheck.WiredIsLinedUp | util/iekanalyzer.c:1801-1901 | the lanes compared are those up to the first disabled one, and the resource's own ports are the first module's if and only if its id has the top bit |
| PhysicalCheck.EndsJoin | util/iekanalyzer.c:1486-1550 | a connection is between the two modules if and only if, for AMC modules, its two ends are at their two sites, either way round, and for an on-carrier device one end is the second record's resource and the other at the second site |
| PhysicalCheck.AcceptsExactly | util/iekanalyzer.c:1474-1569 | a resource accepts if and only if lane 0 is disabled or one of its connections is between the modules and carries the lanes |
| PhysicalCheck.WalkStep | util/iekanalyzer.c:1415-1472 | a resource of a third site is passed over, an own one or one at either site decides, and an own one without ports or one for no site fails the check |
| PhysicalCheck.OneConnectionDecides | util/iekanalyzer.c:1400-1579 | a carrier record with one connection joins two AMC modules if and only if its ends are their sites and their ports, whichever module lists it; one to a third site is refused |
| PhysicalCheck.OnCarrierConnectionDecides | util/iekanalyzer.c:1522-1550 | the same for an on-carrier device, by resource id and site |
| LinkMatching.CompareLinkDescriptor | util/iekanalyzer.c:1925-1993 | links match if and only if type, extension, OEM GUIDs, asymmetric match and number of enabled ports do |
| LinkMatching.CompareGuids | util/iekanalyzer.c:1933-1965 | OEM types match if and only if the modules share a GUID or neither has any |
| LinkMatching.LinksMatchExactly | util/iekanalyzer.c:1925-2100 | links match if and only if they have equal types and extensions, as many lanes enabled, no asymmetric match bit in common, and for types F0 to FE a common GUID or none on either side |
| LinkMatching.CompatibleExactly | util/iekanalyzer.c:1618-1655 | two links are compatible if and only if they match, both or neither are grouped, and the carrier connects the channels found by channel id from each record's first link |
| LinkMatching.ConnectedExactly | util/iekanalyzer.c:1648-1653 | the carrier connects two channels if and only if there is one and the physical check, for the modules' types and resource ids, accepts them |
| LinkMatching.Analyzer.FindChannels | util/iekanalyzer.c:1630-1646 | each function static is set when the pair's own index is 0 and otherwise keeps what it had, an earlier call's value included; channels are counted from the statics |
| LinkMatching.Analyzer.TestPair | util/iekanalyzer.c:1620-1655 | one turn of the search: group ids both zero or both not, descriptors, physical connection between the channels the statics lead to; what it leaves in the statics, and the status |
| LinkMatching.Analyzer.FindMatch | util/iekanalyzer.c:1619-1676 | the inner loop stops at the first match and leaves the statics and status of the last comparison |
| LinkMatching.Analyzer.CompareLink | util/iekanalyzer.c:1604-1771 | flags, displayed report, statics left behind and return value of the whole search, for any statics it starts with |
| LinkMatching.RightSearchFindsFirstMatches | util/iekanalyzer.c:1604-1771 | when every channel looked at was counted from the first links, the search finds exactly the pairs of a link of record 1 with the first link of record 2 compatible with it, so a link of record 2 is flagged if and only if it is some link's first |
| LinkMatching.ReturnIsOfLastLink | util/iekanalyzer.c:1610-1770 | then the status returned is OK if and only if the last link of record 1 with a partner of its group class is compatible with one |
| LinkMatching.ChannelsAreRightExactly | util/iekanalyzer.c:1630-1646 | whatever the statics hold at the start, every channel looked at was counted from the first links if and only if no pair that is the first of its group class to be compared is counted from anything else: it is the two first links, or the statics it does not set have their ids already |
| LinkMatching.AlwaysRightExactlyWhenFirstLinksMeet | util/iekanalyzer.c:1630-1646 | they are for whatever an earlier call has left in the statics if and only if no links are alike at all, or the two first links are and none of the other group class |
| LinkMatching.FreshStaticsServeIdsFromZero | util/iekanalyzer.c:1604-1646 | with the statics as the program starts and first links on channel 0 they always are |
| LinkMatching.FreshStaticsFlagWrongly | util/iekanalyzer.c:1630-1646 | two records and a carrier for which the first search of the program flags a link that no link is compatible with |
| LinkMatching.AllReportsEachOnce | util/iekanalyzer.c:1745-1765 | under "all" every link of record 2 is reported matched or unmatched and never both, whatever was found |
| LinkMatching.ReportShows | util/iekanalyzer.c:1656-1765 | the matches shown are the pairs found, and the unmatched part is all of record 1 and the links of record 2 in no pair |
| LinkMatching.AddUnmatched | util/iekanalyzer.c:1745-1765 | the unmatched part lists all of record 1 and exactly the links of record 2 that are not flagged, in order |
| ConfigLines.ParseLine | util/iconfig.c:1781-1813 | cutting the line in place gives comment, no delimiter, or key and value trimmed around the first delimiter |
| ConfigLines.CutPair | util/iconfig.c:1797-1811 | the two NULs written into the line leave exactly the key and the trimmed value as strings |
| ConfigLines.LineIsCut | util/iconfig.c:1781-1813 | key and value are found around the first delimiter with any blanks (up to 20 hex, and no ASCII) before and after them |
| ConfigLines.OtherLines | util/iconfig.c:1788-1796 | a line whose first visible character is the comment character is a comment, and another without a delimiter is refused |
| ConfigLines.DecodeKey | util/iconfig.c:2384-2401 | the five parameter bytes from the pieces between commas after the first space |
| ConfigLines.DecodeValue | util/iconfig.c:2406-2410 | the bytes read at stride 3 |
| ConfigLines.HexDigitsAreRead | util/subs.c:559-577 | hex digits are read in either case |
| ConfigLines.OtherNumbersAreRead | util/subs.c:479-520 | numbers in a key after 0x or 0X are hexadecimal and after 0 octal, spaces and a plus sign may come first, and a minus sign or more than a byte holds reads as 0 |
| SavedLines.ParameterIsRead | util/subs.c:479-520 | a printed parameter reads as itself, but for a padded 8 or 9 after a space, which reads as 0 |
| SavedLines.KeyIsRead | util/iconfig.c:2384-2401 | the parameters found in a printed key |
| SavedLines.ValueIsTrimmed | util/iconfig.c:1799-1811 | any data bytes printed in hex come back through trimming and the stride-3 reading |
| SavedLines.SavedLineReadsBack | util/iconfig.c:2195-2197 | any saved line gives back its keyword, parameters and data bytes, with any delimiter that is no digit, comma or blank |
| SavedLines.ParametersComeBackExactly | util/iconfig.c:2105-2107 | every parameter comes back if and only if the first is not a zero-padded 8 or 9 |
| ConfigReplay.Bmc.SetLanEntry | util/iconfig.c:676-718 | the slot written, with the vendor whose gratuitous ARP is not set |
| ConfigReplay.Bmc.RestoreEntry | util/iconfig.c:2416-2448 | the lines skipped, the byte dropped, and the two temporary writes before an IP address |
| ConfigReplay.Bmc.Restore | util/iconfig.c:2375-2448 | restoring a file of lines, each cut in a buffer of its own, replays the entries its lines hold |
| ConfigReplay.SendsExactly | util/iconfig.c:2416-2447 | by parameter number, the machines on which a line is sent: 0, 1, 17 and 22 to 24 never, 5, 7, 10, 11, 18 to 21 and 25 under their conditions, all others always |
| ConfigReplay.LineSetsExactly | util/iconfig.c:2416-2447 | a line that is not sent leaves the store alone; one that is leaves its data (a destination type all but its last byte) in its slot, and an IP address also gratuitous ARP off and the source static |
| ConfigReplay.KeywordInAnyCase | util/iconfig.c:2416 | the keyword is read in either case, and other keywords are no LAN lines |
| ConfigReplay.ReplayIsMerge | util/iconfig.c:2416-2448 | whatever was in the store, replaying a file lays one and the same map over it |
| ConfigReplay.TwiceIsOnce | util/iconfig.c:2416-2448 | replaying twice equals replaying once |
| ConfigReplay.TouchesExactly | util/iconfig.c:2416-2448 | the slots that can change are exactly those some line writes, itself or as a temporary value |
| ConfigReplay.RestoredExactlyUnlessOvertaken | util/iconfig.c:2429-2443 | the last line for a slot stands at the end if and only if no IP address line of its channel follows, or the temporary value is the same |
| ConfigReplay.SavedFileRestores | util/iconfig.c:320-360 | in a file in table order every line that is replayed stands at the end, over any store |
| ConfigReplay.GcmArpIsLeftOff | util/iconfig.c:2421 | on the GCM channel gratuitous ARP ends off if an IP address line is replayed there, and is untouched otherwise |
| ConfigReplay.CommentsChangeNothing | util/iconfig.c:1791 | interleaved comment lines do not change the entries replayed |
| ConfigSave.GetLanEntry | util/iconfig.c:627-674 | the record buffer shows the value, a zero after it, and what was there before |
| ConfigSave.SaveChannel | util/iconfig.c:2154-2231 | the lines printed are those of entries that show the store's values in table order, for a parameter or destination row if and only if it is one the loop's conditions and the first missing row let through |
| ConfigSave.SavedExactly | util/iconfig.c:2160-2195 | by parameter number, which ones are saved on which machine and with which switches, if they are there |
| ConfigSave.AddressIsPrinted | util/iconfig.c:2193-2197 | an IP address that is there is printed as its line with its four octets |
| ConfigSave.PrintedLinesAreRead | util/iconfig.c:2195-2197 | the printed file reads back as the entries it was printed from |
| ConfigSave.SaveThenRestore | util/iconfig.c:2416-2448 | saving a channel and restoring the text, on any machine and over any store: every saved parameter that is replayed has its saved value again if and only if the value has the size of the table |
| ConfigSave.WholeParametersComeBack | util/iconfig.c:320-360 | if the parameters hold their lengths of Table 19-4 of IPMI 1.5, every one that was saved and is sent comes back unchanged |
| ConfigSave.DestinationsSavedExactly | util/iconfig.c:2182-2228 | all destination rows are saved if and only if every type and address row is there |
| ConfigSave.DestinationIsSavedExactly | util/iconfig.c:2182-2228 | a destination type is saved if and only if no type up to its row is missing; an address if and only if it is asked for (no type is missing at all, or one up to its row is) and no address asked for up to its row is missing |
| ConfigSave.MissingTypeLosesAnAddress | util/iconfig.c:2182-2228 | with two destinations, both addresses and the first type there and the second type missing, the first address is not saved and the second is |

## Left out

- Terminal: the Win32 calls themselves; setting the console cursor is treated as always succeeding, and cells outside
  the grid as not there. Console processing of decoded control characters (C1, overlong forms) is not modelled: they
  are plain glyphs.
- Terminal: key input, the colour table, the bell, and the functions that do nothing; the OEM and line-drawing glyph
  tables are arbitrary total maps; table look-ups are written as case tests.
- Terminal: the first-time and resize reading of the console's size is a parameter of `WindowSizeChanged`.
- AnsiTerm.AnsiTerm.ProcessOutput: requires that Set Mode is not given a mode it asserts on, as the source does.
- Invariants.EveryRunIsSane: requires that no byte leaves the window, because that is exactly when the bounds fail.
- Buffering.BufferedRefinesImmediate: keeps tabs and unlisted control bytes out of sequences; why is shown by
  `SplitSafeExactlyWhenNothingWaits` and `WaitingCharacterShows`.
- Buffering.SplitSafeExactlyWhenNothingWaits: leaves out one state of a control sequence, a second parameter that has
  overflowed to the SHORT equal to the width, with autowrap off or a width of one: "cursor position" then goes to the
  full line that any text stays in, so its column does not tell.
- Buffering.WaitingCharacterShows: leaves out the same state.
- E-keying: all printing, `malloc` failures and `free`, power figures, clock, address table and shelf records, board and
  carrier point-to-point records of the FRU display, and the text areas.
- RecordLists.ReadRecords: where a file ends inside a header (or right after a record) the source reads that header from
  unset memory; the model stops there and says so. A record whose data is cut short has only the data that is there,
  without the unset bytes the source has behind it.
- AmcRecords.CreateAmcP2pRecord: what lies behind a record too short for its counts is part of the model as arbitrary
  memory; that reading it may fault is not.
- PhysicalCheck.SearchPorts: lanes of the last ports compare with the memory after the copied descriptors, which is the
  parameter `beyond`; reading past the allocation is not modelled otherwise.
- LinkMatching.Analyzer.CompareLink: a channel index outside the record reads an arbitrary channel; record 1's flags, which
  are never read, are not modelled.
- ConfigLines.ParseLine: the fixed sizes of the line, key and value buffers are not modelled; a line is a string without
  NUL of any length.
- ConfigReplay.Bmc.Restore: models the LAN parameters only; serial, PEF, SOL, user, channel and system lines set none of
  them. Waiting for the BMC and error counts are left out, and every Set succeeds (a refused PEF record would switch the
  LAN destinations off).
- ConfigReplay.Bmc.RestoreEntry: a destination type line without data sends nothing; the source's length underflows there.
- ConfigSave.SaveChannel: one channel; what the loop remembers of addresses for other sections is left out.
- The other utilities (`hpiutil`, alarms, raw commands, discovery, DCMI) are option parsing and calls to a BMC.
