/** Replaying a saved LAN section, line by line, onto the parameter store of a BMC whose Set commands
    all succeed. */
module ConfigReplay {
  import opened Bytes
  import opened ConfigLines

  datatype Vendor = Intel | Supermicro | Peppercon | Kontron | OtherVendor

  /** What the restore side knows of the machine. */
  datatype Setup = Setup(vendor: Vendor, ipmi20: bool, restoreMac: bool, gcm: Byte, destinations: bool) {
    /** Parameters whose Set is answered without sending a command. */
    predicate Refuses(idx: Byte) {
      vendor.Supermicro? && (idx == GRATUITOUS_ARP || idx == ARP_INTERVAL)
    }

    /** Lines that are read and not replayed. */
    predicate Skips(e: Entry) {
      || e.idx == 0
      || e.idx == 1 || e.idx == 17
      || (e.idx == MAC && ipmi20 && !restoreMac)
      || (e.idx == GRATUITOUS_ARP && e.chan == gcm)
      || (e.idx == IPV4_HEADER && vendor.Peppercon?)
      || (HasSelector(e.idx) && !destinations)
      || 22 <= e.idx <= 24
      || (20 <= e.idx <= 25 && !ipmi20)
    }
  }

  const IP_ADDRESS: Byte := 3
  const IP_SOURCE: Byte := 4
  const MAC: Byte := 5
  const IPV4_HEADER: Byte := 7
  const GRATUITOUS_ARP: Byte := 10
  const ARP_INTERVAL: Byte := 11
  const DEST_TYPE: Byte := 18
  const DEST_ADDRESS: Byte := 19
  const OFF: Byte := 0
  const STATIC: Byte := 1

  /** Destinations are a table: the first data byte of a Set selects the row. */
  predicate HasSelector(idx: Byte) {
    idx == DEST_TYPE || idx == DEST_ADDRESS
  }

  /** A decoded LanParam line. */
  datatype Entry = Entry(chan: Byte, idx: Byte, bset: Byte, data: seq<Byte>) {
    /** The Get of a destination type has a byte more than its Set. */
    function Sent(): seq<Byte> {
      if idx == DEST_TYPE && data != [] then data[..|data| - 1] else data
    }

    function Place(): Slot {
      SlotOf(chan, idx, Sent())
    }
  }

  datatype Slot = Slot(chan: Byte, idx: Byte, sel: Byte)
  type Store = map<Slot, seq<Byte>>

  function SlotOf(chan: Byte, idx: Byte, record: seq<Byte>): Slot {
    Slot(chan, idx, if HasSelector(idx) && record != [] then record[0] else 0)
  }

  function Set(s: Setup, st: Store, chan: Byte, idx: Byte, record: seq<Byte>): Store {
    if s.Refuses(idx) then st else st[SlotOf(chan, idx, record) := record]
  }

  /** One line: an IP address switches gratuitous ARP off and the address source to static first. */
  function Replay(s: Setup, st: Store, e: Entry): Store {
    if s.Skips(e) then st
    else
      var ready :=
        if e.idx == IP_ADDRESS then Set(s, Set(s, st, e.chan, GRATUITOUS_ARP, [OFF]), e.chan, IP_SOURCE, [STATIC]) else st;
      Set(s, ready, e.chan, e.idx, e.Sent())
  }

  function Replayed(s: Setup, st: Store, es: seq<Entry>): Store {
    if es == [] then st else Replay(s, Replayed(s, st, es[..|es| - 1]), es[|es| - 1])
  }

  // ----- which slots a line writes, and with what -----

  predicate WritesItself(s: Setup, e: Entry, slot: Slot) {
    !s.Skips(e) && !s.Refuses(e.idx) && e.Place() == slot
  }

  /** The temporary writes of an IP address line. */
  predicate Overtakes(s: Setup, e: Entry, slot: Slot) {
    && e.idx == IP_ADDRESS && slot.chan == e.chan && !s.Refuses(slot.idx)
    && (slot.idx == GRATUITOUS_ARP || slot.idx == IP_SOURCE) && slot.sel == 0
  }

  function Temporary(idx: Byte): seq<Byte> {
    if idx == IP_SOURCE then [STATIC] else [OFF]
  }

  lemma ReplayWrites(s: Setup, st: Store, e: Entry, slot: Slot)
    ensures var r := Replay(s, st, e);
            if WritesItself(s, e, slot) then slot in r && r[slot] == e.Sent()
            else if Overtakes(s, e, slot) then slot in r && r[slot] == Temporary(slot.idx)
            else (slot in r <==> slot in st) && (slot in st ==> r[slot] == st[slot])
  {
  }

  // ----- which parameters a line sets, by number -----

  /** The machines on which a line for parameter `idx` of channel `chan` is sent, by the parameter's
      number in Table 19-4 of IPMI 1.5: 0, 1, 17 and 22 to 24 never are; the addresses, mask, gateways,
      ports and community string always are. */
  predicate Sends(s: Setup, chan: Byte, idx: Byte) {
    match idx
    case 0 | 1 | 17 | 22 | 23 | 24 => false
    case 5 => !s.ipmi20 || s.restoreMac
    case 7 => s.vendor != Peppercon
    case 10 => chan != s.gcm && s.vendor != Supermicro
    case 11 => s.vendor != Supermicro
    case 18 | 19 => s.destinations
    case 20 | 21 | 25 => s.ipmi20
    case _ => true
  }

  /** The bytes sent for a parameter: a destination type loses its last one. */
  function DataSent(idx: Byte, data: seq<Byte>): seq<Byte> {
    if idx == 18 && data != [] then data[..|data| - 1] else data
  }

  /** Where they go: destinations say in the first byte which one they are. */
  function SlotSent(chan: Byte, idx: Byte, data: seq<Byte>): Slot {
    Slot(chan, idx, if (idx == 18 || idx == 19) && DataSent(idx, data) != [] then DataSent(idx, data)[0] else 0)
  }

  lemma SendsExactly(s: Setup, e: Entry)
    ensures Sends(s, e.chan, e.idx) <==> !s.Skips(e) && !s.Refuses(e.idx)
    ensures e.Sent() == DataSent(e.idx, e.data) && e.Place() == SlotSent(e.chan, e.idx, e.data)
  {
  }

  /** What one line leaves in the store: nothing if it is not sent, and otherwise its data. An IP address
      also leaves gratuitous ARP off, where that can be set, and the source of the address static. */
  lemma LineSetsExactly(s: Setup, st: Store, e: Entry)
    ensures Replay(s, st, e) ==
            if !Sends(s, e.chan, e.idx) then st
            else if e.idx == 3 then
              (if s.vendor == Supermicro then st else st[Slot(e.chan, 10, 0) := [0]])[Slot(e.chan, 4, 0) := [1]][Slot(e.chan, 3, 0) := e.data]
            else st[SlotSent(e.chan, e.idx, e.data) := DataSent(e.idx, e.data)]
  {
    SendsExactly(s, e);
    hide Sends;
  }

  // ----- a replay is one merge -----

  lemma ReplayMerges(s: Setup, st: Store, m: Store, e: Entry)
    ensures Replay(s, st + m, e) == st + Replay(s, m, e)
  {
  }

  /** Whatever was in the store, a replay lays the same map over it. */
  lemma {:induction false} ReplayIsMerge(s: Setup, st: Store, es: seq<Entry>)
    ensures Replayed(s, st, es) == st + Replayed(s, map[], es)
    decreases |es|
  {
    if es == [] {
      assert st + map[] == st;
    } else {
      ReplayIsMerge(s, st, es[..|es| - 1]);
      ReplayMerges(s, st, Replayed(s, map[], es[..|es| - 1]), es[|es| - 1]);
    }
  }

  /** Replaying a file twice equals replaying it once. */
  lemma TwiceIsOnce(s: Setup, st: Store, es: seq<Entry>)
    ensures Replayed(s, Replayed(s, st, es), es) == Replayed(s, st, es)
  {
    var m := Replayed(s, map[], es);
    ReplayIsMerge(s, st, es);
    ReplayIsMerge(s, st + m, es);
    assert (st + m) + m == st + m;
  }

  /** A replay touches exactly the slots its lines write. */
  lemma {:induction false} TouchesExactly(s: Setup, st: Store, es: seq<Entry>, slot: Slot)
    ensures var written := exists i | 0 <= i < |es| :: WritesItself(s, es[i], slot) || Overtakes(s, es[i], slot);
            && (slot in Replayed(s, st, es) <==> slot in st || written)
            && (!written && slot in st ==> Replayed(s, st, es)[slot] == st[slot])
    decreases |es|
  {
    if es != [] {
      var n := |es| - 1;
      TouchesExactly(s, st, es[..n], slot);
      ReplayWrites(s, Replayed(s, st, es[..n]), es[n], slot);
      assert forall i | 0 <= i < n :: es[..n][i] == es[i];
      hide Replay, WritesItself, Overtakes;
    }
  }

  // ----- what a line leaves behind -----

  /** No line after `k` and before `n` writes the slot of line `k` on its own account. */
  predicate LastOfItsSlot(s: Setup, es: seq<Entry>, k: nat, n: nat) {
    k < n <= |es| && !s.Skips(es[k]) && forall j | k < j < n :: !WritesItself(s, es[j], es[k].Place())
  }

  predicate Overtaken(s: Setup, es: seq<Entry>, k: nat, n: nat)
    requires k < n <= |es|
  {
    exists j | k < j < n :: Overtakes(s, es[j], es[k].Place())
  }

  lemma {:induction false} ValueAfter(s: Setup, st: Store, es: seq<Entry>, k: nat, n: nat)
    requires LastOfItsSlot(s, es, k, n) && !s.Refuses(es[k].idx)
    ensures var r, slot := Replayed(s, st, es[..n]), es[k].Place();
            slot in r && r[slot] == if Overtaken(s, es, k, n) then Temporary(slot.idx) else es[k].Sent()
    decreases n
  {
    assert es[..n][..n - 1] == es[..n - 1];
    ReplayWrites(s, Replayed(s, st, es[..n - 1]), es[n - 1], es[k].Place());
    if k < n - 1 {
      ValueAfter(s, st, es, k, n - 1);
      hide Replay, WritesItself, Overtakes, Temporary, Entry.Place, Entry.Sent;
      assert Overtaken(s, es, k, n) <==> Overtaken(s, es, k, n - 1) || Overtakes(s, es[n - 1], es[k].Place());
    }
  }

  /** The value of the last line for a parameter stands at the end exactly when no IP address line of
      its channel follows, or the temporary value happens to be the same. */
  lemma {:induction false} RestoredExactlyUnlessOvertaken(s: Setup, st: Store, es: seq<Entry>, k: nat)
    requires LastOfItsSlot(s, es, k, |es|) && !s.Refuses(es[k].idx)
    ensures var r, slot := Replayed(s, st, es), es[k].Place();
            && slot in r
            && (r[slot] == es[k].Sent() <==>
                !Overtaken(s, es, k, |es|) || es[k].Sent() == Temporary(slot.idx))
  {
    ValueAfter(s, st, es, k, |es|);
    assert es[..|es|] == es;
  }

  /** Saved files: within a channel the parameters ascend, and no two lines share a slot. */
  ghost predicate Ascends(es: seq<Entry>) {
    && (forall j, k | 0 <= j < k < |es| && es[j].chan == es[k].chan :: es[j].idx <= es[k].idx)
    && (forall j, k | 0 <= j < k < |es| :: es[j].Place() != es[k].Place())
  }

  /** A saved file restores every line it replays, over any store. */
  lemma {:induction false} SavedFileRestores(s: Setup, st: Store, es: seq<Entry>, k: nat)
    requires Ascends(es) && k < |es| && !s.Skips(es[k]) && !s.Refuses(es[k].idx)
    ensures var r, slot := Replayed(s, st, es), es[k].Place();
            slot in r && r[slot] == es[k].Sent()
  {
    forall j | k < j < |es|
      ensures !WritesItself(s, es[j], es[k].Place()) && !Overtakes(s, es[j], es[k].Place())
    {
    }
    RestoredExactlyUnlessOvertaken(s, st, es, k);
  }

  /** On the GCM channel gratuitous ARP is never restored: an IP address line leaves it off. */
  lemma {:induction false} GcmArpIsLeftOff(s: Setup, st: Store, es: seq<Entry>)
    ensures var r, slot := Replayed(s, st, es), Slot(s.gcm, GRATUITOUS_ARP, 0);
            if !s.Refuses(GRATUITOUS_ARP) && exists i | 0 <= i < |es| :: es[i].chan == s.gcm && es[i].idx == IP_ADDRESS
            then slot in r && r[slot] == [OFF]
            else (slot in r <==> slot in st) && (slot in st ==> r[slot] == st[slot])
    decreases |es|
  {
    if es != [] {
      var n := |es| - 1;
      GcmArpIsLeftOff(s, st, es[..n]);
      assert forall i | 0 <= i < n :: es[..n][i] == es[i];
      ReplayWrites(s, Replayed(s, st, es[..n]), es[n], Slot(s.gcm, GRATUITOUS_ARP, 0));
      hide Replay;
    }
  }

  // ----- from text -----

  function Lower(c: char): char {
    if 'A' <= c <= 'Z' then c - 'A' + 'a' else c
  }

  const KEYWORD := "LanParam"

  predicate IsLan(key: string) {
    |key| >= |KEYWORD| && forall i | 0 <= i < |KEYWORD| :: Lower(key[i]) == Lower(KEYWORD[i])
  }

  /** The keyword is read in either case. */
  lemma KeywordInAnyCase(rest: string)
    ensures IsLan("LanParam" + rest) && IsLan("LANPARAM" + rest) && IsLan("lanparam" + rest)
    ensures !IsLan("PEFParam" + rest) && !IsLan("SOLParam" + rest) && !IsLan("SerialParam" + rest)
  {
    var a, b, c := "LanParam" + rest, "LANPARAM" + rest, "lanparam" + rest;
    assert a[0] == 'L' && a[1] == 'a' && a[2] == 'n' && a[3] == 'P' && a[4] == 'a' && a[5] == 'r' && a[6] == 'a' && a[7] == 'm';
    assert b[0] == 'L' && b[1] == 'A' && b[2] == 'N' && b[3] == 'P' && b[4] == 'A' && b[5] == 'R' && b[6] == 'A' && b[7] == 'M';
    assert c[0] == 'l' && c[1] == 'a' && c[2] == 'n' && c[3] == 'p' && c[4] == 'a' && c[5] == 'r' && c[6] == 'a' && c[7] == 'm';
    assert ("PEFParam" + rest)[0] == 'P' && ("SOLParam" + rest)[0] == 'S' && ("SerialParam" + rest)[0] == 'S';
    var zero := 0;
    assert Lower(KEYWORD[zero]) == 'l';
  }

  function EntryOf(line: string, delim: char, comment: char): Option<Entry> {
    match ParsedLine(line, delim, comment)
    case Pair(key, value) =>
      if IsLan(key) then
        var p := KeyParameters(key);
        Some(Entry(p[0], p[1], p[2], ValueBytes(value)))
      else None
    case _ => None
  }

  function Entries(lines: seq<string>, delim: char, comment: char): seq<Entry> {
    if lines == [] then []
    else
      var n := |lines| - 1;
      Entries(lines[..n], delim, comment) + match EntryOf(lines[n], delim, comment) case Some(e) => [e] case None => []
  }

  predicate IsComment(line: string, comment: char) {
    TrimLeft(line) != [] && TrimLeft(line)[0] == comment
  }

  function WithoutComments(lines: seq<string>, comment: char): (r: seq<string>)
    ensures forall i | 0 <= i < |r| :: !IsComment(r[i], comment)
  {
    if lines == [] then []
    else
      var n := |lines| - 1;
      WithoutComments(lines[..n], comment) + if IsComment(lines[n], comment) then [] else [lines[n]]
  }

  /** Comment lines between the others change nothing. */
  lemma {:induction false} CommentsChangeNothing(lines: seq<string>, delim: char, comment: char)
    ensures Entries(WithoutComments(lines, comment), delim, comment) == Entries(lines, delim, comment)
    decreases |lines|
  {
    if lines != [] {
      var n := |lines| - 1;
      var kept := WithoutComments(lines[..n], comment);
      CommentsChangeNothing(lines[..n], delim, comment);
      hide EntryOf, IsComment;
      if IsComment(lines[n], comment) {
        CommentHasNoEntry(lines[n], delim, comment);
        assert kept + [] == kept;
      } else {
        assert (kept + [lines[n]])[..|kept|] == kept;
      }
    }
  }

  lemma CommentHasNoEntry(line: string, delim: char, comment: char)
    requires IsComment(line, comment)
    ensures EntryOf(line, delim, comment) == None
  {
  }

  // ----- the restore side -----

  class Bmc {
    const setup: Setup
    var store: Store
    var lanChannel: Byte

    constructor (setup: Setup, store: Store, lanChannel: Byte)
      ensures this.setup == setup && this.store == store && this.lanChannel == lanChannel
    {
      this.setup, this.store, this.lanChannel := setup, store, lanChannel;
    }

    method SetLanEntry(idx: Byte, record: seq<Byte>)
      modifies this`store
      ensures store == Set(setup, old(store), lanChannel, idx, record)
    {
      if setup.vendor.Supermicro? && (idx == GRATUITOUS_ARP || idx == ARP_INTERVAL) {
        return;
      }
      store := store[SlotOf(lanChannel, idx, record) := record];
    }

    method RestoreEntry(e: Entry)
      modifies this
      ensures store == Replay(setup, old(store), e)
    {
      if setup.Skips(e) {
        return;
      }
      var record := e.data;
      if e.idx == DEST_TYPE && record != [] {
        record := record[..|record| - 1];
      }
      lanChannel := e.chan;
      if e.idx == IP_ADDRESS {
        SetLanEntry(GRATUITOUS_ARP, [OFF]);
        SetLanEntry(IP_SOURCE, [STATIC]);
      }
      SetLanEntry(e.idx, record);
    }

    /** One line of the file, cut up in a buffer of its own. */
    method RestoreLine(text: string, delim: char, comment: char)
      requires NUL !in text && !IsBlank(delim)
      modifies this
      ensures store == match EntryOf(text, delim, comment)
                       case Some(e) => Replay(setup, old(store), e)
                       case None => old(store)
    {
      var line := Buffered(text);
      var parsed := ParseLine(line, |text|, delim, comment);
      match parsed
      case Pair(key, value) =>
        var params := DecodeKey(key);
        var data := DecodeValue(value);
        if IsLan(key) {
          RestoreEntry(Entry(params[0], params[1], params[2], data));
        }
      case _ =>
    }

    method Restore(lines: seq<string>, delim: char, comment: char)
      requires (forall i | 0 <= i < |lines| :: NUL !in lines[i]) && !IsBlank(delim)
      modifies this
      ensures store == Replayed(setup, old(store), Entries(lines, delim, comment))
    {
      var n := 0;
      while n < |lines|
        invariant 0 <= n <= |lines|
        invariant store == Replayed(setup, old(store), Entries(lines[..n], delim, comment))
      {
        RestoreLine(lines[n], delim, comment);
        EntriesStep(setup, old(store), lines, n, delim, comment);
        n := n + 1;
      }
      assert lines[..n] == lines;
    }
  }

  lemma EntriesStep(s: Setup, st: Store, lines: seq<string>, n: nat, delim: char, comment: char)
    requires n < |lines|
    ensures var before := Replayed(s, st, Entries(lines[..n], delim, comment));
            Replayed(s, st, Entries(lines[..n + 1], delim, comment)) ==
            match EntryOf(lines[n], delim, comment) case Some(e) => Replay(s, before, e) case None => before
  {
    assert lines[..n + 1][..n] == lines[..n];
    hide EntryOf, Replay;
    var es := Entries(lines[..n], delim, comment);
    match EntryOf(lines[n], delim, comment)
    case Some(e) => assert (es + [e])[..|es|] == es;
    case None => assert es + [] == es;
  }

  method Buffered(text: string) returns (line: array<char>)
    requires NUL !in text
    ensures fresh(line) && line.Length == |text| + 1 && line[..|text|] == text && IsCString(line[..], 0, |text|)
  {
    line := new char[|text| + 1](_ => NUL);
    var i := 0;
    while i < |text|
      invariant 0 <= i <= |text| && line[..i] == text[..i] && line[|text|] == NUL
    {
      line[i] := text[i];
      i := i + 1;
    }
    assert line[..|text|] == text;
    assert forall k | 0 <= k < |text| :: line[..|text|][k] == text[k];
  }
}
