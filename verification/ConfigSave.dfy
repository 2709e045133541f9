/** Saving the LAN parameters of a channel as text, and what restoring that text brings back. */
module ConfigSave {
  import opened Bytes
  import opened ConfigLines
  import opened SavedLines
  import opened ConfigReplay

  const NLAN := 39
  const RECORD_SIZE := 64
  const NUM_DEST: Byte := 17
  const HOST_NAME: Byte := 194
  const CHANNEL_ACCESS: Byte := 201

  /** The parameter in row `i` of the table of LAN parameters. */
  function Command(i: nat): Byte
    requires i < NLAN
  {
    if i <= 25 then i
    else if i <= 28 then i + 70
    else if i <= 33 then i + 73
    else if i == 34 then 108
    else if i <= 37 then i + 157
    else CHANNEL_ACCESS
  }

  /** The bytes printed for a parameter. */
  function Size(s: Setup, cmd: Byte): nat {
    match cmd
    case 2 => 5
    case 3 | 12 | 14 | 25 | 192 => 4
    case 5 | 13 | 15 | 193 => 6
    case 6 => 4
    case 7 | 98 => 3
    case 8 | 9 | 20 => 2
    case 16 => 18
    case 18 => 5
    case 19 => 13
    case 23 | 108 => 17
    case 24 => 9
    case 96 => 28
    case 104 | 106 => 16
    case 194 => if s.vendor.Kontron? then 36 else 1
    case _ => 1
  }

  /** What the record buffer shows of a value: the value, a zero, and then whatever was there before. */
  predicate Shows(data: seq<Byte>, value: seq<Byte>) {
    forall i | 0 <= i < |data| && i <= |value| :: data[i] == if i < |value| then value[i] else 0
  }

  method GetLanEntry(b: Store, slot: Slot, record: array<Byte>) returns (ok: bool)
    requires record.Length == RECORD_SIZE && (slot in b ==> |b[slot]| < RECORD_SIZE)
    modifies record
    ensures ok == (slot in b)
    ensures ok ==> Shows(record[..], b[slot])
  {
    ok := slot in b;
    if ok {
      var value := b[slot];
      forall i | 0 <= i < |value| {
        record[i] := value[i];
      }
      record[|value|] := 0;
    }
  }

  // ----- printing an entry -----

  function Printed(e: Entry, delim: char): string {
    Line(KEYWORD, 1, [Parameter(e.chan, false), Parameter(e.idx, false), Parameter(e.bset, false)], delim, 1, e.data, "\n")
  }

  function PrintedLines(es: seq<Entry>, delim: char): seq<string> {
    if es == [] then [] else PrintedLines(es[..|es| - 1], delim) + [Printed(es[|es| - 1], delim)]
  }

  /** The separators in use: ':' or '|', and a comment character that is not the keyword's first. */
  predicate Separators(delim: char, comment: char) {
    (delim == ':' || delim == '|') && comment != KEYWORD[0]
  }

  lemma PrintedIsRead(e: Entry, delim: char, comment: char)
    requires Separators(delim, comment)
    ensures EntryOf(Printed(e, delim), delim, comment) == Some(e)
  {
    var ps := [Parameter(e.chan, false), Parameter(e.idx, false), Parameter(e.bset, false)];
    var r := ParsedLine(Printed(e, delim), delim, comment);
    KeywordFits(delim, comment);
    PlainParameters(ps, 1);
    assert Printed(e, delim) == Line(KEYWORD, 1, ps, delim, 1, e.data, "\n");
    SavedLineReadsBack(KEYWORD, 1, ps, delim, 1, e.data, "\n", comment);
    hide Line, KeyParameters, ParametersRead, ValueBytes, ParsedLine, IsLan, Printed;
    KeywordIsLan(r.key, IndexOf(r.key, ' '));
  }

  lemma KeywordFits(delim: char, comment: char)
    requires Separators(delim, comment)
    ensures IsKeyword(KEYWORD, delim, comment) && IsDelimiter(delim) && AllBlank("\n")
  {
  }

  lemma PlainParameters(ps: seq<Parameter>, gap: nat)
    requires |ps| == 3 && forall i | 0 <= i < 3 :: !ps[i].padded
    ensures ParametersRead(ps, gap) == [ps[0].value, ps[1].value, ps[2].value, 0, 0]
  {
  }

  lemma KeywordIsLan(key: string, i: nat)
    requires i <= |key| && key[..i] == KEYWORD
    ensures IsLan(key)
  {
    assert forall j | 0 <= j < i :: key[j] == key[..i][j];
  }

  lemma PrintedMore(es: seq<Entry>, e: Entry, delim: char)
    ensures PrintedLines(es + [e], delim) == PrintedLines(es, delim) + [Printed(e, delim)]
  {
    assert (es + [e])[..|es|] == es;
  }

  lemma EntriesOfMore(lines: seq<string>, line: string, delim: char, comment: char)
    requires EntryOf(line, delim, comment).Some?
    ensures Entries(lines + [line], delim, comment) == Entries(lines, delim, comment) + [EntryOf(line, delim, comment).value]
  {
    assert (lines + [line])[..|lines|] == lines;
    hide EntryOf;
  }

  lemma {:induction false} PrintedLinesAreRead(es: seq<Entry>, delim: char, comment: char)
    requires Separators(delim, comment)
    ensures Entries(PrintedLines(es, delim), delim, comment) == es
    decreases |es|
  {
    if es != [] {
      hide *;
      var n := |es| - 1;
      assert es[..n] + [es[n]] == es;
      PrintedMore(es[..n], es[n], delim);
      PrintedLinesAreRead(es[..n], delim, comment);
      PrintedIsRead(es[n], delim, comment);
      EntriesOfMore(PrintedLines(es[..n], delim), Printed(es[n], delim), delim, comment);
    }
  }

  // ----- the save loop -----

  /** One save: the machine, two switches of the program, and the channel of its store to be saved. */
  datatype Job = Job(setup: Setup, ipv6: bool, oemDhcp: bool, store: Store, chan: Byte) {
    /** Rows of the table the loop passes over. */
    predicate PassesOver(i: nat)
      requires i < NLAN
    {
      var cmd := Command(i);
      || i == 8 || i == 9
      || 96 <= cmd <= 98
      || (102 <= cmd <= 108 && !ipv6)
      || (192 <= cmd <= 194 && !(cmd == HOST_NAME && setup.vendor.Kontron?) && !(setup.vendor.Intel? && oemDhcp))
      || (20 <= cmd <= 25 && !setup.ipmi20)
      || (cmd == ARP_INTERVAL && setup.vendor.Supermicro?)
      || ((cmd == 14 || cmd == 15) && setup.vendor.Kontron?)
      || cmd == CHANNEL_ACCESS
    }

    predicate Has(cmd: Byte, bset: Byte) {
      Slot(chan, cmd, bset) in store
    }

    function Value(cmd: Byte, bset: Byte): seq<Byte>
      requires Has(cmd, bset)
    {
      store[Slot(chan, cmd, bset)]
    }

    /** The number of destinations, once the loop has passed their count. */
    function Destinations(): nat {
      if Has(NUM_DEST, 0) then FirstByte(Value(NUM_DEST, 0)) else 0
    }

    /** The first row from `row` on that is past the destinations or not there. */
    function FirstMissing(cmd: Byte, row: nat): (m: nat)
      ensures row <= m
      decreases Destinations() - row
    {
      if row <= Destinations() && Has(cmd, row) then FirstMissing(cmd, row + 1) else row
    }

    /** The first row asked for: a missing destination type leaves the row number where it was. */
    function Start(cmd: Byte): nat {
      var types := FirstMissing(DEST_TYPE, 1);
      if cmd == DEST_ADDRESS && types <= Destinations() then types else 1
    }

    /** The parameters a save prints. */
    predicate Saved(i: nat, row: Byte)
      requires i < NLAN
    {
      var cmd := Command(i);
      && !PassesOver(i)
      && if HasSelector(cmd) then Start(cmd) <= row < FirstMissing(cmd, Start(cmd)) else row == 0 && Has(cmd, 0)
    }

    /** An entry that shows a slot of the store. */
    predicate Gives(e: Entry) {
      && e.chan == chan && Has(e.idx, e.bset) && (HasSelector(e.idx) || e.bset == 0)
      && |e.data| == Size(setup, e.idx) && Shows(e.data, Value(e.idx, e.bset))
    }

    /** Every entry shows a slot, and they come in the order of the table. */
    ghost predicate IsSave(es: seq<Entry>) {
      && (forall k | 0 <= k < |es| :: Gives(es[k]))
      && (forall j, k | 0 <= j < k < |es| :: Before(es[j], es[k].idx, es[k].bset))
    }

    ghost predicate Fits() {
      forall slot | slot in store :: |store[slot]| < RECORD_SIZE
    }

    /** Where the save loop is: what it has printed of each row, and which one it will ask for next. */
    ghost predicate Progress(es: seq<Entry>, i: nat, row: nat, destinations: nat) {
      && i <= NLAN && IsSave(es)
      && (i < NLAN ==> forall k | 0 <= k < |es| :: Before(es[k], Command(i), row))
      && Decided(es, i)
      && (i <= NUM_DEST ==> row == 1)
      && (i > NUM_DEST ==> destinations == Destinations())
      && (i == DEST_TYPE || i == DEST_ADDRESS ==> AtRow(es, i, row))
    }

    ghost predicate Decided(es: seq<Entry>, i: nat)
      requires i <= NLAN
    {
      forall p: nat, b: Byte | p < i :: Contains(es, Command(p), b) <==> Saved(p, b)
    }

    ghost predicate AtRow(es: seq<Entry>, cmd: Byte, row: nat) {
      && Start(cmd) <= row && (Destinations() > 0 ==> row <= Destinations())
      && FirstMissing(cmd, row) == FirstMissing(cmd, Start(cmd))
      && forall b: Byte :: Contains(es, cmd, b) <==> Start(cmd) <= b < row
    }
  }

  function FirstByte(value: seq<Byte>): Byte {
    if value == [] then 0 else value[0]
  }

  predicate Before(a: Entry, idx: int, bset: int) {
    a.idx < idx || (a.idx == idx && HasSelector(a.idx) && a.bset < bset)
  }

  predicate Contains(es: seq<Entry>, idx: Byte, bset: Byte) {
    exists k | 0 <= k < |es| :: es[k].idx == idx && es[k].bset == bset
  }

  lemma ContainsMore(es: seq<Entry>, e: Entry)
    ensures forall idx, bset :: Contains(es + [e], idx, bset) <==> Contains(es, idx, bset) || (e.idx == idx && e.bset == bset)
  {
    var more := es + [e];
    assert more[|es|] == e;
    forall idx: Byte, bset: Byte
      ensures Contains(more, idx, bset) <==> Contains(es, idx, bset) || (e.idx == idx && e.bset == bset)
    {
      if Contains(es, idx, bset) {
        var k :| 0 <= k < |es| && es[k].idx == idx && es[k].bset == bset;
        assert more[k] == es[k];
      }
    }
  }

  /** Read one slot and print it. */
  method SaveEntry(job: Job, cmd: Byte, bset: Byte, record: array<Byte>, delim: char)
    returns (ok: bool, line: string, first: Byte, e: Entry)
    requires record.Length == RECORD_SIZE && job.Fits()
    requires HasSelector(cmd) || bset == 0
    modifies record
    ensures ok == job.Has(cmd, bset)
    ensures ok ==> job.Gives(e) && e.idx == cmd && e.bset == bset && line == Printed(e, delim)
    ensures ok ==> first == FirstByte(job.Value(cmd, bset))
  {
    ok := GetLanEntry(job.store, Slot(job.chan, cmd, bset), record);
    e := Entry(job.chan, cmd, bset, record[..Size(job.setup, cmd)]);
    line, first := "", record[0];
    if ok {
      line := Printed(e, delim);
      assert first == record[..][0];
      hide Printed, Size;
    }
  }

  /** The lines of a save: entries in table order, each showing a slot of the store, for exactly the
      parameters a save prints. */
  ghost predicate IsFile(job: Job, lines: seq<string>, delim: char) {
    exists es: seq<Entry> :: lines == PrintedLines(es, delim) && IsWholeSave(job, es)
  }

  ghost predicate IsWholeSave(job: Job, es: seq<Entry>) {
    job.IsSave(es) && forall i: nat, row: Byte | i < NLAN :: Contains(es, Command(i), row) <==> job.Saved(i, row)
  }

  /** The save loop over the table; a destination row is repeated until the last one. */
  method SaveChannel(job: Job, assumed: nat, delim: char) returns (lines: seq<string>)
    requires job.Fits()
    ensures IsFile(job, lines, delim)
  {
    var record := new Byte[RECORD_SIZE];
    var i: nat, row: nat, destinations: nat := 0, 1, assumed;
    ghost var es := [];
    lines := [];
    while i < NLAN
      invariant record.Length == RECORD_SIZE && fresh(record)
      invariant lines == PrintedLines(es, delim) && job.Progress(es, i, row, destinations)
      decreases NLAN - i, destinations - row
    {
      i, row, destinations, lines, es := SaveRow(job, i, row, destinations, record, delim, lines, es);
    }
    assert IsWholeSave(job, es);
  }

  /** One turn of the loop. */
  method SaveRow(job: Job, i: nat, row: nat, destinations: nat, record: array<Byte>, delim: char, lines: seq<string>, ghost es: seq<Entry>)
    returns (i': nat, row': nat, destinations': nat, lines': seq<string>, ghost es': seq<Entry>)
    requires job.Fits() && record.Length == RECORD_SIZE
    requires i < NLAN && lines == PrintedLines(es, delim) && job.Progress(es, i, row, destinations)
    modifies record
    ensures lines' == PrintedLines(es', delim) && job.Progress(es', i', row', destinations')
    ensures i' == i + 1 || (i' == i && destinations' == destinations && row < row' <= destinations)
  {
    hide PrintedLines, Job.Progress, Printed, Job.PassesOver, Job.Fits, Job.Gives, Job.Value;
    i', row', destinations', lines', es' := i, row, destinations, lines, es;
    var cmd := Command(i);
    if job.PassesOver(i) || (HasSelector(cmd) && destinations == 0) {
      RowIsPassed(job, es, i, row, destinations);
      i' := i + 1;
      return;
    }
    RowFits(job, es, i, row, destinations);
    var bset := if HasSelector(cmd) then row else 0;
    var ok, line, first, e := SaveEntry(job, cmd, bset, record, delim);
    if !ok {
      RowIsMissing(job, es, i, row, destinations);
      if cmd == NUM_DEST {
        destinations' := 0;
      }
      i' := i + 1;
    } else {
      if HasSelector(cmd) {
        DestinationIsPrinted(job, es, e, i, row, destinations);
      } else {
        RowIsPrinted(job, es, e, i, row, destinations);
      }
      PrintedMore(es, e, delim);
      lines', es' := lines + [line], es + [e];
      if cmd == NUM_DEST {
        destinations' := first;
      }
      if HasSelector(cmd) && row < destinations' {
        row' := row + 1;
      } else {
        row' := if HasSelector(cmd) then 1 else row;
        i' := i + 1;
      }
    }
  }

  lemma RowFits(job: Job, es: seq<Entry>, i: nat, row: nat, destinations: nat)
    requires i < NLAN && job.Progress(es, i, row, destinations) && (HasSelector(Command(i)) ==> destinations > 0)
    ensures HasSelector(Command(i)) ==> row < 256
  {
  }

  lemma RowIsPassed(job: Job, es: seq<Entry>, i: nat, row: nat, destinations: nat)
    requires i < NLAN && job.Progress(es, i, row, destinations)
    requires job.PassesOver(i) || (HasSelector(Command(i)) && destinations == 0)
    ensures job.Progress(es, i + 1, row, destinations)
  {
  }

  lemma RowIsMissing(job: Job, es: seq<Entry>, i: nat, row: nat, destinations: nat)
    requires i < NLAN && job.Progress(es, i, row, destinations) && !job.PassesOver(i)
    requires HasSelector(Command(i)) ==> destinations > 0 && row < 256 && !job.Has(Command(i), row)
    requires !HasSelector(Command(i)) ==> !job.Has(Command(i), 0)
    ensures job.Progress(es, i + 1, row, if Command(i) == NUM_DEST then 0 else destinations)
  {
  }

  lemma RowIsPrinted(job: Job, es: seq<Entry>, e: Entry, i: nat, row: nat, destinations: nat)
    requires i < NLAN && job.Progress(es, i, row, destinations) && !job.PassesOver(i)
    requires job.Gives(e) && e.idx == Command(i) && !HasSelector(e.idx)
    ensures job.Progress(es + [e], i + 1, row, if e.idx == NUM_DEST then FirstByte(job.Value(e.idx, 0)) else destinations)
  {
    ContainsMore(es, e);
    assert e.bset == 0 && job.Has(Command(i), 0);
    hide Job.PassesOver, Job.Gives;
    assert forall b: Byte :: !Contains(es, Command(i), b);
    assert job.Decided(es + [e], i + 1);
  }

  lemma DestinationIsPrinted(job: Job, es: seq<Entry>, e: Entry, i: nat, row: nat, destinations: nat)
    requires i < NLAN && job.Progress(es, i, row, destinations) && !job.PassesOver(i)
    requires job.Gives(e) && e.idx == Command(i) && HasSelector(e.idx) && destinations > 0 && e.bset == row
    ensures if row < destinations then job.Progress(es + [e], i, row + 1, destinations)
            else job.Progress(es + [e], i + 1, 1, destinations)
  {
    ContainsMore(es, e);
    assert job.Has(e.idx, row);
    assert job.AtRow(es, e.idx, row);
    assert job.FirstMissing(e.idx, row) == job.FirstMissing(e.idx, row + 1);
    hide Job.PassesOver, Job.Gives;
    if row == destinations {
      assert job.FirstMissing(e.idx, row + 1) == row + 1;
      assert forall b: Byte :: Contains(es + [e], e.idx, b) <==> job.Saved(i, b);
    }
  }

  // ----- save, then restore -----

  /** A destination's value starts with its row. */
  ghost predicate RowsLead(b: Store) {
    forall slot | slot in b && HasSelector(slot.idx) :: b[slot] != [] && b[slot][0] == slot.sel
  }

  /** The length a value must have for its printed bytes to be the value again; the zero printed after
      a destination type is not sent back. */
  function WholeSize(s: Setup, idx: Byte): nat {
    if idx == DEST_TYPE then Size(s, idx) - 1 else Size(s, idx)
  }

  lemma EntryGoesBack(job: Job, e: Entry)
    requires job.Gives(e) && RowsLead(job.store)
    ensures e.Place() == Slot(job.chan, e.idx, e.bset)
    ensures e.Sent() == job.Value(e.idx, e.bset) <==> |job.Value(e.idx, e.bset)| == WholeSize(job.setup, e.idx)
  {
    var value := job.Value(e.idx, e.bset);
    assert |e.Sent()| == WholeSize(job.setup, e.idx) && e.Sent() <= e.data;
    if HasSelector(e.idx) {
      assert value == job.store[Slot(job.chan, e.idx, e.bset)];
      assert e.Sent()[0] == e.data[0] == value[0];
    }
    if |value| == WholeSize(job.setup, e.idx) {
      assert e.Sent() == value;
    }
  }

  lemma SaveAscends(job: Job, es: seq<Entry>)
    requires job.IsSave(es) && RowsLead(job.store)
    ensures Ascends(es)
  {
    forall k | 0 <= k < |es| ensures es[k].Place() == Slot(job.chan, es[k].idx, es[k].bset) {
      EntryGoesBack(job, es[k]);
    }
    hide Job.Gives, Entry.Place, RowsLead;
  }

  /** Saving a channel and restoring the text, on whatever machine and over whatever was there: each
      saved parameter that is replayed has its saved value again exactly when its size is the table's. */
  lemma SaveThenRestore(job: Job, lines: seq<string>, there: Setup, target: Store, delim: char, comment: char, i: nat, row: Byte)
    requires IsFile(job, lines, delim) && RowsLead(job.store) && Separators(delim, comment)
    requires i < NLAN && job.Saved(i, row)
    requires !there.Skips(Entry(job.chan, Command(i), row, [])) && !there.Refuses(Command(i))
    ensures var slot, restored := Slot(job.chan, Command(i), row), Replayed(there, target, Entries(lines, delim, comment));
            && slot in restored && slot in job.store
            && (restored[slot] == job.store[slot] <==> |job.store[slot]| == WholeSize(job.setup, Command(i)))
  {
    var es: seq<Entry> :| lines == PrintedLines(es, delim) && IsWholeSave(job, es);
    assert Contains(es, Command(i), row);
    var k :| 0 <= k < |es| && es[k].idx == Command(i) && es[k].bset == row;
    assert job.Gives(es[k]) && !there.Skips(es[k]);
    hide Job.IsSave, Job.Saved, RowsLead, Ascends, Setup.Skips, Setup.Refuses, Entry.Sent, Entry.Place, Command, Contains;
    PrintedLinesAreRead(es, delim, comment);
    SaveAscends(job, es);
    SavedFileRestores(there, target, es, k);
    EntryGoesBack(job, es[k]);
  }

  /** The bytes a parameter holds, by its number: addresses and masks are 4, MAC addresses 6, the
      community string 18, a destination type 4 and its address 13. */
  function Length(vendor: Vendor, idx: Byte): nat {
    match idx
    case 3 | 6 | 12 | 14 | 192 => 4
    case 5 | 13 | 15 | 193 => 6
    case 16 => 18
    case 18 => 4
    case 19 => 13
    case 2 => 5
    case 7 => 3
    case 20 => 2
    case 25 => 4
    case 23 | 108 => 17
    case 24 => 9
    case 104 | 106 => 16
    case 194 => if vendor == Kontron then 36 else 1
    case _ => 1
  }

  lemma LengthIsWhole(s: Setup, i: nat, idx: Byte)
    requires i < NLAN && idx == Command(i) && i != 8 && i != 9 && !(96 <= idx <= 98) && idx != CHANNEL_ACCESS
    ensures Length(s.vendor, idx) == WholeSize(s, idx)
  {
  }

  /** A store whose parameters have their lengths comes back: on whatever machine and over whatever was
      there, each parameter that was saved and is sent has its saved value again. */
  lemma WholeParametersComeBack(job: Job, lines: seq<string>, there: Setup, target: Store, delim: char, comment: char)
    requires IsFile(job, lines, delim) && RowsLead(job.store) && Separators(delim, comment)
    requires forall i: nat, row: Byte | i < NLAN && job.Saved(i, row) && Slot(job.chan, Command(i), row) in job.store ::
               |job.store[Slot(job.chan, Command(i), row)]| == Length(job.setup.vendor, Command(i))
    ensures forall i: nat, row: Byte | i < NLAN && job.Saved(i, row) && Sends(there, job.chan, Command(i)) ::
              var slot, restored := Slot(job.chan, Command(i), row), Replayed(there, target, Entries(lines, delim, comment));
              slot in restored && slot in job.store && restored[slot] == job.store[slot]
  {
    forall i: nat, row: Byte | i < NLAN && job.Saved(i, row) && Sends(there, job.chan, Command(i))
      ensures var slot, restored := Slot(job.chan, Command(i), row), Replayed(there, target, Entries(lines, delim, comment));
              slot in restored && slot in job.store && restored[slot] == job.store[slot]
    {
      SendsExactly(there, Entry(job.chan, Command(i), row, []));
      LengthIsWhole(job.setup, i, Command(i));
      hide Sends, Length, WholeSize, Command, Job.Saved, Replayed, Entries, IsFile, RowsLead;
      SaveThenRestore(job, lines, there, target, delim, comment, i, row);
    }
  }

  /** The line of a saved IP address, with its four octets in hex. */
  function AddressLine(chan: Byte, a: Byte, b: Byte, c: Byte, d: Byte, delim: char): string {
    "LanParam " + Decimal(chan) + ",3,0" + [delim] + "  " + Hex(a) + " " + Hex(b) + " " + Hex(c) + " " + Hex(d) + "\n"
  }

  /** An IP address is saved whenever it is there. */
  lemma AddressIsPrinted(job: Job, lines: seq<string>, delim: char, a: Byte, b: Byte, c: Byte, d: Byte)
    requires IsFile(job, lines, delim)
    requires Slot(job.chan, 3, 0) in job.store && job.store[Slot(job.chan, 3, 0)] == [a, b, c, d]
    ensures AddressLine(job.chan, a, b, c, d, delim) in lines
  {
    var es: seq<Entry> :| lines == PrintedLines(es, delim) && IsWholeSave(job, es);
    assert Command(3) == 3 && job.Saved(3, 0);
    assert Contains(es, Command(3), 0);
    var k :| 0 <= k < |es| && es[k].idx == 3 && es[k].bset == 0;
    assert job.Gives(es[k]);
    assert es[k].data == [a, b, c, d];
    EntryIsPrinted(es, k, delim);
    AddressText(es[k], a, b, c, d, delim);
  }

  lemma {:induction false} EntryIsPrinted(es: seq<Entry>, k: nat, delim: char)
    requires k < |es|
    ensures |PrintedLines(es, delim)| == |es| && PrintedLines(es, delim)[k] == Printed(es[k], delim)
    decreases |es|
  {
    if k < |es| - 1 {
      EntryIsPrinted(es[..|es| - 1], k, delim);
    } else if k > 0 {
      EntryIsPrinted(es[..|es| - 1], 0, delim);
    }
    hide Printed;
  }

  lemma AddressText(e: Entry, a: Byte, b: Byte, c: Byte, d: Byte, delim: char)
    requires e.idx == 3 && e.bset == 0 && e.data == [a, b, c, d]
    ensures Printed(e, delim) == AddressLine(e.chan, a, b, c, d, delim)
  {
    var ps := [Parameter(e.chan, false), Parameter(3, false), Parameter(0, false)];
    JoinedKey(e.chan);
    FourBytes(a, b, c, d);
    assert Spaces(1) == " ";
    hide Hex, HexBytes, Joined, Spaces, Decimal;
    var key, bytes := Decimal(e.chan) + ",3,0", " " + Hex(a) + " " + Hex(b) + " " + Hex(c) + " " + Hex(d);
    assert Printed(e, delim) == "LanParam" + " " + key + [delim] + (" " + bytes + "\n");
  }

  lemma JoinedKey(chan: Byte)
    ensures Joined([Parameter(chan, false), Parameter(3, false), Parameter(0, false)]) == Decimal(chan) + ",3,0"
  {
    var p, q, r := Parameter(chan, false), Parameter(3, false), Parameter(0, false);
    assert q.Text() == "3" && r.Text() == "0";
    assert [p, q, r][1..] == [q, r] && [q, r][1..] == [r];
    hide Decimal;
    assert Joined([q, r]) == "3,0";
  }

  lemma FourBytes(a: Byte, b: Byte, c: Byte, d: Byte)
    ensures HexBytes([a, b, c, d]) == " " + Hex(a) + " " + Hex(b) + " " + Hex(c) + " " + Hex(d)
  {
    assert [a, b, c, d][1..] == [b, c, d] && [b, c, d][1..] == [c, d] && [c, d][1..] == [d] && [d][1..] == [];
    hide Hex;
    assert HexBytes([d]) == " " + Hex(d);
    assert HexBytes([c, d]) == " " + Hex(c) + " " + Hex(d);
    assert HexBytes([b, c, d]) == " " + Hex(b) + " " + Hex(c) + " " + Hex(d);
  }

  /** The parameters that are saved when they are there, by number, but for the two destination tables. */
  predicate Kept(job: Job, idx: Byte) {
    match idx
    case 11 => job.setup.vendor != Supermicro
    case 14 | 15 => job.setup.vendor != Kontron
    case 20 | 21 | 22 | 23 | 24 | 25 => job.setup.ipmi20
    case 102 | 103 | 104 | 105 | 106 | 108 => job.ipv6
    case 192 | 193 => job.setup.vendor == Intel && job.oemDhcp
    case 194 => job.setup.vendor == Kontron || (job.setup.vendor == Intel && job.oemDhcp)
    case _ => idx <= 17 && idx != 8 && idx != 9
  }

  /** The row of the table that parameter `idx` is in, if it is in one. */
  function RowOf(idx: Byte): nat {
    if idx <= 25 then idx
    else if 96 <= idx <= 98 then idx - 70
    else if 102 <= idx <= 106 then idx - 73
    else if idx == 108 then 34
    else if 192 <= idx <= 194 then idx - 157
    else if idx == CHANNEL_ACCESS then 38
    else NLAN
  }

  lemma RowsAre(idx: Byte)
    ensures forall i | 0 <= i < NLAN :: Command(i) == idx <==> i == RowOf(idx)
  {
  }

  /** A parameter that is no destination is saved exactly when it is one of those and is there. */
  lemma SavedExactly(job: Job, idx: Byte)
    requires idx != 18 && idx != 19
    ensures (exists i: nat :: i < NLAN && Command(i) == idx && job.Saved(i, 0)) <==>
            Kept(job, idx) && Slot(job.chan, idx, 0) in job.store
  {
    RowsAre(idx);
    if RowOf(idx) < NLAN {
      RowIsSaved(job, RowOf(idx));
    }
    hide Command, Job.Saved;
  }

  lemma RowIsSaved(job: Job, i: nat)
    requires i < NLAN && Command(i) != 18 && Command(i) != 19
    ensures job.Saved(i, 0) <==> Kept(job, Command(i)) && Slot(job.chan, Command(i), 0) in job.store
  {
    hide Job.Start, Job.FirstMissing;
  }

  // ----- the rows of the two destination tables -----

  lemma {:induction false} MissingLater(job: Job, cmd: Byte, row: nat, r: nat)
    requires row <= r <= job.Destinations()
    ensures r < job.FirstMissing(cmd, row) <==> forall k: Byte | row <= k <= r :: job.Has(cmd, k)
    decreases r - row
  {
    if row < r {
      MissingLater(job, cmd, row + 1, r);
    }
  }

  /** No type is missing from row `from` up to row `to`. */
  ghost predicate TypesThere(job: Job, from: nat, to: nat) {
    forall k: Byte | from <= k <= to :: job.Has(DEST_TYPE, k)
  }

  /** The rows whose address the loop asks for: all of them when every type is there, and otherwise only
      those from the first missing type on. */
  ghost predicate AddressAsked(job: Job, r: Byte) {
    1 <= r <= job.Destinations() && (TypesThere(job, 1, job.Destinations()) || !TypesThere(job, 1, r))
  }

  lemma AskedFromStart(job: Job, r: Byte)
    requires 1 <= r <= job.Destinations()
    ensures AddressAsked(job, r) <==> job.Start(DEST_ADDRESS) <= r
  {
    MissingLater(job, DEST_TYPE, 1, r);
    MissingLater(job, DEST_TYPE, 1, job.Destinations());
  }

  /** A type is saved exactly when no type up to it is missing. An address is saved exactly when it is
      asked for and no address asked for up to it is missing: a missing type also loses the addresses
      of the rows before it, though they are there. */
  lemma DestinationIsSavedExactly(job: Job, r: Byte)
    requires 1 <= r <= job.Destinations()
    ensures job.Saved(DEST_TYPE, r) <==> TypesThere(job, 1, r)
    ensures job.Saved(DEST_ADDRESS, r) <==>
            AddressAsked(job, r) && forall k: Byte | k <= r && AddressAsked(job, k) :: job.Has(DEST_ADDRESS, k)
  {
    MissingLater(job, DEST_TYPE, 1, r);
    AskedFromStart(job, r);
    var start := job.Start(DEST_ADDRESS);
    if start <= r {
      MissingLater(job, DEST_ADDRESS, start, r);
      forall k: Byte | 1 <= k <= r ensures AddressAsked(job, k) <==> start <= k {
        AskedFromStart(job, k);
      }
    }
  }

  /** Two destinations, with both addresses there but the second type missing: the first address is
      not saved. */
  lemma MissingTypeLosesAnAddress(setup: Setup, chan: Byte)
    ensures var job := TypeMissing(setup, chan);
            && job.Destinations() == 2 && job.Has(DEST_ADDRESS, 1) && job.Has(DEST_ADDRESS, 2)
            && !job.Saved(DEST_ADDRESS, 1) && job.Saved(DEST_ADDRESS, 2)
  {
    var job := TypeMissing(setup, chan);
    assert job.Value(NUM_DEST, 0) == [2];
    var missing: Byte := 2;
    assert !job.Has(DEST_TYPE, missing);
    DestinationIsSavedExactly(job, 1);
    DestinationIsSavedExactly(job, 2);
  }

  function TypeMissing(setup: Setup, chan: Byte): Job {
    Job(setup, false, false,
        map[Slot(chan, 17, 0) := [2], Slot(chan, 18, 1) := [1], Slot(chan, 19, 1) := [1], Slot(chan, 19, 2) := [2]], chan)
  }

  /** Every destination is saved exactly when none is missing. */
  lemma DestinationsSavedExactly(job: Job)
    ensures (forall r: Byte | 1 <= r <= job.Destinations() :: job.Saved(DEST_TYPE, r) && job.Saved(DEST_ADDRESS, r)) <==>
            (forall r: Byte | 1 <= r <= job.Destinations() :: job.Has(DEST_TYPE, r) && job.Has(DEST_ADDRESS, r))
  {
    var all := TypesThere(job, 1, job.Destinations());
    forall r: Byte | 1 <= r <= job.Destinations()
      ensures job.Saved(DEST_TYPE, r) <==> TypesThere(job, 1, r)
      ensures all ==> (job.Saved(DEST_ADDRESS, r) <==> forall k: Byte | 1 <= k <= r :: job.Has(DEST_ADDRESS, k))
    {
      DestinationIsSavedExactly(job, r);
      assert all ==> forall k: Byte | 1 <= k <= r :: AddressAsked(job, k);
    }
    hide Job.Saved;
  }
}
