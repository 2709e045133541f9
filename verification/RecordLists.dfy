/** FRU multi-records in a doubly linked list: adding at the end, unlinking anywhere, emptying
    it from the head, and reading a file's records into it. */
module RecordLists {
  const HEADER_SIZE := 5
  const MULTI_OFFSET := 5
  const OFFSET_UNIT := 8
  const LAST_RECORD: bv8 := 0x80

  datatype Header = Header(kind: bv8, format: bv8, len: bv8, recordChecksum: bv8, headerChecksum: bv8)

  datatype Record = Record(header: Header, data: seq<bv8>)

  class Node {
    const record: Record
    var prev: Node?
    var next: Node?

    constructor (record: Record)
      ensures this.record == record
    {
      this.record := record;
    }
  }

  predicate Distinct(nodes: seq<Node>) {
    forall i, j | 0 <= i < j < |nodes| :: nodes[i] != nodes[j]
  }

  function Without(nodes: seq<Node>, k: nat): seq<Node>
    requires k < |nodes|
  {
    nodes[..k] + nodes[k + 1..]
  }

  function Minus(nodes: seq<Node>, n: Node): seq<Node> {
    if nodes == [] then [] else if nodes[0] == n then nodes[1..] else [nodes[0]] + Minus(nodes[1..], n)
  }

  lemma {:induction false} MinusIsWithout(nodes: seq<Node>, k: nat)
    requires k < |nodes| && Distinct(nodes)
    ensures Minus(nodes, nodes[k]) == Without(nodes, k)
    decreases |nodes|
  {
    if k > 0 {
      assert nodes[1..][k - 1] == nodes[k];
      MinusIsWithout(nodes[1..], k - 1);
      assert [nodes[0]] + Without(nodes[1..], k - 1) == Without(nodes, k);
    }
  }

  lemma WithoutMembers(nodes: seq<Node>, k: nat)
    requires k < |nodes| && Distinct(nodes)
    ensures Distinct(Without(nodes, k)) && nodes[k] !in Without(nodes, k)
    ensures forall n <- Without(nodes, k) :: n in nodes
  {
  }

  /** `list_head` and `list_last`, with the nodes between them in order. */
  class RecordList {
    var head: Node?
    var last: Node?
    ghost var nodes: seq<Node>

    ghost predicate Valid()
      reads this, nodes
    {
      && Distinct(nodes)
      && head == (if nodes == [] then null else nodes[0])
      && last == (if nodes == [] then null else nodes[|nodes| - 1])
      && (forall i {:trigger nodes[i].prev} | 0 <= i < |nodes| :: nodes[i].prev == if i == 0 then null else nodes[i - 1])
      && (forall i {:trigger nodes[i].next} | 0 <= i < |nodes| ::
            nodes[i].next == if i == |nodes| - 1 then null else nodes[i + 1])
    }

    constructor ()
      ensures Valid() && nodes == []
    {
      head, last, nodes := null, null, [];
    }

    method Add(record: Node)
      requires Valid() && record !in nodes
      modifies this, record, last
      ensures Valid() && nodes == old(nodes) + [record]
    {
      if head == null {
        head := record;
        record.prev := null;
      } else {
        last.next := record;
        record.prev := last;
      }
      last := record;
      record.next := null;
      nodes := nodes + [record];
    }

    /** Unlink a record: its neighbours, or the ends of the list, close over it. */
    method Remove(record: Node)
      requires Valid() && record in nodes
      modifies this, nodes
      ensures Valid()
      ensures nodes == Minus(old(nodes), record) && |nodes| == |old(nodes)| - 1
      ensures forall n <- nodes :: n in old(nodes)
    {
      ghost var k :| 0 <= k < |nodes| && nodes[k] == record;
      MinusIsWithout(nodes, k);
      WithoutMembers(nodes, k);
      RemoveAt(record, k);
    }

    method RemoveAt(record: Node, ghost k: nat)
      requires Valid() && k < |nodes| && nodes[k] == record
      modifies this, nodes
      ensures Valid() && nodes == Without(old(nodes), k)
    {
      Unlink(record);
      ghost var was := nodes;
      WithoutMembers(was, k);
      nodes := Without(was, k);
      forall i | 0 <= i < |nodes|
        ensures nodes[i].prev == if i == 0 then null else nodes[i - 1]
        ensures nodes[i].next == if i == |nodes| - 1 then null else nodes[i + 1]
      {
        assert nodes[i] == was[if i < k then i else i + 1];
      }
    }

    method Unlink(record: Node)
      requires Valid() && record in nodes
      modifies `head, `last, nodes
      ensures head == (if old(record.prev) == null then old(record.next) else old(head))
      ensures last == (if old(record.next) == null then old(record.prev) else old(last))
      ensures forall n {:trigger n.prev} | n in nodes ::
                n.prev == if n == old(record.next) then old(record.prev) else old(n.prev)
      ensures forall n {:trigger n.next} | n in nodes ::
                n.next == if n == old(record.prev) then old(record.next) else old(n.next)
    {
      if record.prev == null {
        head := record.next;
      } else {
        record.prev.next := record.next;
      }
      if record.next == null {
        last := record.prev;
      } else {
        record.next.prev := record.prev;
      }
    }

    /** The clean-up loop: removing the head until there is none ends with the empty list. */
    method RemoveAll()
      requires Valid()
      modifies this, nodes
      ensures Valid() && nodes == [] && head == null && last == null
    {
      while head != null
        invariant Valid() && (forall i | 0 <= i < |nodes| :: nodes[i] in old(nodes))
        decreases |nodes|
      {
        Remove(head);
      }
    }

    method Apply(op: Op, ghost all: set<Node>)
      requires Valid() && op.node in all && (forall n <- nodes :: n in all)
      requires if op.Added? then op.node !in nodes else op.node in nodes
      modifies this, all
      ensures Valid() && nodes == if op.Added? then old(nodes) + [op.node] else Minus(old(nodes), op.node)
    {
      if op.Added? {
        Add(op.node);
      } else {
        Remove(op.node);
      }
    }

    /** Any legal sequence of additions and removals, from the empty list. */
    method Perform(ops: seq<Op>)
      requires Valid() && nodes == [] && Legal(ops)
      modifies this, set op <- ops :: op.node
      ensures Valid() && nodes == Contents(ops)
    {
      ghost var all := set op <- ops :: op.node;
      var i := 0;
      assert ops[..0] == [];
      while i < |ops|
        invariant 0 <= i <= |ops| && Valid() && nodes == Contents(ops[..i])
      {
        NextIsLegal(ops, i);
        assert ops[i] in ops;
        Apply(ops[i], all);
        i := i + 1;
      }
      assert ops[..i] == ops;
    }

    ghost function Records(): seq<Record>
      reads this
    {
      RecordsOf(nodes)
    }
  }

  function RecordsOf(nodes: seq<Node>): seq<Record> {
    seq(|nodes|, i requires 0 <= i < |nodes| => nodes[i].record)
  }

  // ----- sequences of additions and removals -----

  datatype Op = Added(node: Node) | Removed(node: Node)

  function Contents(ops: seq<Op>): seq<Node> {
    if ops == [] then []
    else
      var before, op := Contents(ops[..|ops| - 1]), ops[|ops| - 1];
      if op.Added? then before + [op.node] else Minus(before, op.node)
  }

  function AddedNodes(ops: seq<Op>): seq<Node> {
    if ops == [] then []
    else
      var before, op := AddedNodes(ops[..|ops| - 1]), ops[|ops| - 1];
      if op.Added? then before + [op.node] else before
  }

  function RemovedNodes(ops: seq<Op>): set<Node> {
    set op | op in ops && op.Removed? :: op.node
  }

  /** Each record is added once, and only records in the list are removed. */
  predicate Legal(ops: seq<Op>) {
    ops == [] ||
    (Legal(ops[..|ops| - 1]) &&
     var op := ops[|ops| - 1];
     if op.Added? then op.node !in AddedNodes(ops[..|ops| - 1]) else op.node in Contents(ops[..|ops| - 1]))
  }

  function Keep(nodes: seq<Node>, gone: set<Node>): seq<Node> {
    if nodes == [] then []
    else if nodes[0] in gone then Keep(nodes[1..], gone) else [nodes[0]] + Keep(nodes[1..], gone)
  }

  lemma {:induction false} LegalPrefix(ops: seq<Op>, k: nat)
    requires k <= |ops| && Legal(ops)
    ensures Legal(ops[..k])
    decreases |ops|
  {
    if k < |ops| {
      assert ops[..|ops| - 1][..k] == ops[..k];
      LegalPrefix(ops[..|ops| - 1], k);
    } else {
      assert ops[..k] == ops;
    }
  }

  lemma NextIsLegal(ops: seq<Op>, i: nat)
    requires i < |ops| && Legal(ops)
    ensures var before, op := ops[..i], ops[i];
            && (if op.Added? then op.node !in Contents(before) else op.node in Contents(before))
            && (forall n <- Contents(before) :: n in set o <- ops :: o.node)
            && Contents(ops[..i + 1]) == if op.Added? then Contents(before) + [op.node] else Minus(Contents(before), op.node)
  {
    assert ops[..i + 1][..i] == ops[..i] && ops[..i + 1][i] == ops[i];
    LegalPrefix(ops, i + 1);
    ContentsAreAdded(ops[..i]);
    forall n <- Contents(ops[..i]) ensures n in set o <- ops :: o.node {
      AddedComesFrom(ops[..i], n);
      var op :| op in ops[..i] && op.node == n;
      assert op in ops;
    }
  }

  lemma {:induction false} AddedComesFrom(ops: seq<Op>, n: Node)
    requires n in AddedNodes(ops)
    ensures exists op <- ops :: op.node == n
    decreases |ops|
  {
    var last := ops[|ops| - 1];
    if !(last.Added? && last.node == n) {
      AddedComesFrom(ops[..|ops| - 1], n);
      var op :| op in ops[..|ops| - 1] && op.node == n;
      assert op in ops;
    }
  }

  lemma {:induction false} KeepAppend(nodes: seq<Node>, n: Node, gone: set<Node>)
    ensures Keep(nodes + [n], gone) == Keep(nodes, gone) + (if n in gone then [] else [n])
    decreases |nodes|
  {
    if nodes == [] {
      assert nodes + [n] == [n] && [n][1..] == [];
      assert Keep([], gone) == [];
    } else {
      assert (nodes + [n])[1..] == nodes[1..] + [n];
      KeepAppend(nodes[1..], n, gone);
    }
  }

  lemma {:induction false} KeepMembers(nodes: seq<Node>, gone: set<Node>, n: Node)
    ensures n in Keep(nodes, gone) <==> n in nodes && n !in gone
    decreases |nodes|
  {
    if nodes != [] {
      KeepMembers(nodes[1..], gone, n);
      assert n in nodes <==> n == nodes[0] || n in nodes[1..];
    }
  }

  lemma {:induction false} MinusAbsent(nodes: seq<Node>, n: Node)
    requires n !in nodes
    ensures Minus(nodes, n) == nodes
    decreases |nodes|
  {
    if nodes != [] {
      MinusAbsent(nodes[1..], n);
    }
  }

  lemma {:induction false} KeepTwice(nodes: seq<Node>, gone: set<Node>, n: Node)
    requires Distinct(nodes)
    ensures Minus(Keep(nodes, gone), n) == Keep(nodes, gone + {n})
    decreases |nodes|
  {
    if nodes != [] {
      KeepTwice(nodes[1..], gone, n);
      if nodes[0] == n {
        KeepMembers(nodes[1..], gone, n);
        MinusAbsent(Keep(nodes[1..], gone), n);
      }
    }
  }

  /** The list holds the added records in order, minus the removed ones. */
  lemma {:induction false} ContentsAreAdded(ops: seq<Op>)
    requires Legal(ops)
    ensures Distinct(AddedNodes(ops))
    ensures Contents(ops) == Keep(AddedNodes(ops), RemovedNodes(ops))
    ensures forall n <- Contents(ops) :: n in AddedNodes(ops)
    ensures forall n <- RemovedNodes(ops) :: n in AddedNodes(ops)
    decreases |ops|
  {
    if ops != [] {
      var init, op := ops[..|ops| - 1], ops[|ops| - 1];
      ContentsAreAdded(init);
      assert ops == init + [op];
      if op.Added? {
        assert RemovedNodes(ops) == RemovedNodes(init);
        KeepAppend(AddedNodes(init), op.node, RemovedNodes(init));
      } else {
        assert RemovedNodes(ops) == RemovedNodes(init) + {op.node};
        KeepTwice(AddedNodes(init), RemovedNodes(init), op.node);
      }
      forall n <- Contents(ops) ensures n in AddedNodes(ops) {
        KeepMembers(AddedNodes(ops), RemovedNodes(ops), n);
      }
    }
  }

  // ----- reading a file's records -----

  function HeaderOf(bytes: seq<bv8>): Header
    requires |bytes| >= HEADER_SIZE
  {
    Header(bytes[0], bytes[1], bytes[2], bytes[3], bytes[4])
  }

  /** The records read, and whether the reading came to its end before the input ran out. */
  datatype Outcome = Outcome(records: seq<Record>, complete: bool) {
    function After(before: seq<Record>): Outcome {
      Outcome(before + records, complete)
    }
  }

  /** The records from `bytes` on: empty ones are passed over, and the first other one marked last
      ends the reading. A record that the end of the input cuts short is still one, with the data
      that is there; where the header itself is cut short the source is left with unset memory. */
  function RecordsIn(bytes: seq<bv8>): Outcome
    decreases |bytes|
  {
    if |bytes| < HEADER_SIZE then Outcome([], false)
    else
      var header := HeaderOf(bytes);
      var size: nat := HEADER_SIZE + header.len as int;
      if |bytes| < size then Outcome([Record(header, bytes[HEADER_SIZE..])], false)
      else if header.len == 0 then RecordsIn(bytes[size..])
      else
        var record := Record(header, bytes[HEADER_SIZE..size]);
        if header.format & LAST_RECORD != 0 then Outcome([record], true) else RecordsIn(bytes[size..]).After([record])
  }

  lemma RecordsAppend(nodes: seq<Node>, n: Node)
    ensures RecordsOf(nodes + [n]) == RecordsOf(nodes) + [n.record]
  {
  }

  /** `sofar` records have been read and the rest of the input is `rest`. */
  ghost predicate Progress(bytes: seq<bv8>, sofar: seq<Record>, rest: seq<bv8>) {
    RecordsIn(bytes) == RecordsIn(rest).After(sofar)
  }

  lemma StepForward(bytes: seq<bv8>, sofar: seq<Record>, rest: seq<bv8>, size: nat)
    requires Progress(bytes, sofar, rest) && |rest| >= HEADER_SIZE && size == HEADER_SIZE + HeaderOf(rest).len as int <= |rest|
    ensures var header := HeaderOf(rest);
            var record := Record(header, rest[HEADER_SIZE..size]);
            && (header.len == 0 ==> Progress(bytes, sofar, rest[size..]))
            && (header.len != 0 && header.format & LAST_RECORD == 0 ==> Progress(bytes, sofar + [record], rest[size..]))
            && (header.len != 0 && header.format & LAST_RECORD != 0 ==> RecordsIn(bytes) == Outcome(sofar + [record], true))
  {
    var record := Record(HeaderOf(rest), rest[HEADER_SIZE..size]);
    var more := RecordsIn(rest[size..]).records;
    assert sofar + ([record] + more) == (sofar + [record]) + more;
  }

  lemma LastStep(bytes: seq<bv8>, sofar: seq<Record>, rest: seq<bv8>)
    requires Progress(bytes, sofar, rest) && HEADER_SIZE <= |rest| < HEADER_SIZE + HeaderOf(rest).len as int
    ensures RecordsIn(bytes) == Outcome(sofar + [Record(HeaderOf(rest), rest[HEADER_SIZE..])], false)
  {
  }

  method ReadRecords(bytes: seq<bv8>, list: RecordList) returns (complete: bool)
    requires list.Valid() && list.nodes == []
    modifies list
    ensures list.Valid()
    ensures list.Records() == RecordsIn(bytes).records && complete == RecordsIn(bytes).complete
  {
    var rest := bytes;
    assert Progress(bytes, [], bytes);
    while true
      invariant list.Valid() && (list.last != null ==> fresh(list.last))
      invariant Progress(bytes, list.Records(), rest)
      decreases |rest|
    {
      if |rest| < HEADER_SIZE {
        return false;
      }
      var header := HeaderOf(rest);
      var size: nat := HEADER_SIZE + header.len as int;
      if |rest| < size {
        LastStep(bytes, list.Records(), rest);
        hide RecordsIn, Progress;
        var cut := new Node(Record(header, rest[HEADER_SIZE..]));
        RecordsAppend(list.nodes, cut);
        list.Add(cut);
        return false;
      }
      StepForward(bytes, list.Records(), rest, size);
      hide RecordsIn, Progress;
      if header.len != 0 {
        var node := new Node(Record(header, rest[HEADER_SIZE..size]));
        RecordsAppend(list.nodes, node);
        list.Add(node);
        if header.format & LAST_RECORD != 0 {
          return true;
        }
      }
      rest := rest[size..];
    }
  }

  /** Where the records start: the offset counts in units of eight bytes, and may lie behind the end. */
  function RecordBytesOf(file: seq<bv8>): seq<bv8>
    requires |file| > MULTI_OFFSET
  {
    var start := OFFSET_UNIT * file[MULTI_OFFSET] as int;
    if start <= |file| then file[start..] else []
  }

  /** A file without a multi-record offset has no records. */
  method FileToStructure(file: seq<bv8>, list: RecordList) returns (found: bool, complete: bool)
    requires list.Valid() && list.nodes == []
    modifies list
    ensures list.Valid()
    ensures found <==> |file| > MULTI_OFFSET && file[MULTI_OFFSET] != 0
    ensures !found ==> list.nodes == [] && !complete
    ensures found ==> list.Records() == RecordsIn(RecordBytesOf(file)).records && complete == RecordsIn(RecordBytesOf(file)).complete
  {
    found := |file| > MULTI_OFFSET && file[MULTI_OFFSET] != 0;
    complete := false;
    if found {
      complete := ReadRecords(RecordBytesOf(file), list);
    }
  }

  // ----- what a file of records reads as -----

  /** A record as a file holds it: its length byte says how much data follows. */
  predicate IsRecord(r: Record) {
    r.header.len as int == |r.data|
  }

  function RecordBytes(r: Record): seq<bv8> {
    [r.header.kind, r.header.format, r.header.len, r.header.recordChecksum, r.header.headerChecksum] + r.data
  }

  function FileBytes(rs: seq<Record>): seq<bv8> {
    if rs == [] then [] else RecordBytes(rs[0]) + FileBytes(rs[1..])
  }

  function NonEmpty(rs: seq<Record>): seq<Record> {
    if rs == [] then [] else (if rs[0].data == [] then [] else [rs[0]]) + NonEmpty(rs[1..])
  }

  /** The reading stops at a record with data and the last-record bit; the bit alone does not stop it. */
  predicate Stops(r: Record) {
    r.data != [] && r.header.format & LAST_RECORD != 0
  }

  lemma LengthIsZero(b: bv8)
    ensures b == 0 <==> b as int == 0
  {
  }

  lemma FirstRecord(r: Record, rest: seq<bv8>)
    requires IsRecord(r)
    ensures var bytes := RecordBytes(r) + rest;
            && HEADER_SIZE + |r.data| <= |bytes| && HeaderOf(bytes) == r.header
            && bytes[HEADER_SIZE..HEADER_SIZE + |r.data|] == r.data && bytes[HEADER_SIZE + |r.data|..] == rest
            && (r.header.len == 0 <==> r.data == [])
  {
    LengthIsZero(r.header.len);
  }

  /** A file of records, whatever follows it, reads as its non-empty records in file order, up to and
      including the first that stops the reading. */
  lemma {:induction false} FileReadsUpToLast(rs: seq<Record>, stop: nat, junk: seq<bv8>)
    requires stop < |rs| && Stops(rs[stop]) && (forall i | 0 <= i < stop :: !Stops(rs[i]))
    requires forall i | 0 <= i < |rs| :: IsRecord(rs[i])
    ensures RecordsIn(FileBytes(rs) + junk) == Outcome(NonEmpty(rs[..stop + 1]), true)
    decreases |rs|
  {
    var r, rest := rs[0], FileBytes(rs[1..]) + junk;
    assert FileBytes(rs) + junk == RecordBytes(r) + rest;
    FirstRecord(r, rest);
    assert rs[..stop + 1][0] == r && rs[..stop + 1][1..] == rs[1..][..stop];
    if stop == 0 {
      assert NonEmpty(rs[1..][..0]) == [];
      assert NonEmpty(rs[..1]) == [r];
    } else {
      FileReadsUpToLast(rs[1..], stop - 1, junk);
    }
    hide HeaderOf, RecordBytes, FileBytes;
  }

  lemma OneIsPassed(r: Record, rest: seq<bv8>)
    requires IsRecord(r) && !Stops(r)
    ensures RecordsIn(RecordBytes(r) + rest) == RecordsIn(rest).After(if r.data == [] then [] else [r])
  {
    FirstRecord(r, rest);
    hide HeaderOf, RecordBytes;
  }

  lemma AfterTwice(o: Outcome, near: seq<Record>, far: seq<Record>)
    ensures o.After(near).After(far) == o.After(far + near)
  {
    assert far + (near + o.records) == (far + near) + o.records;
  }

  /** Records that do not stop the reading are all read, and it goes on behind them. */
  lemma {:induction false} RecordsArePassed(rs: seq<Record>, rest: seq<bv8>)
    requires forall i | 0 <= i < |rs| :: IsRecord(rs[i]) && !Stops(rs[i])
    ensures RecordsIn(FileBytes(rs) + rest) == RecordsIn(rest).After(NonEmpty(rs))
    decreases |rs|
  {
    if rs == [] {
      assert FileBytes(rs) + rest == rest;
    } else {
      assert FileBytes(rs) + rest == RecordBytes(rs[0]) + (FileBytes(rs[1..]) + rest);
      hide RecordsIn, RecordBytes, FileBytes, IsRecord, Stops;
      var first := if rs[0].data == [] then [] else [rs[0]];
      OneIsPassed(rs[0], FileBytes(rs[1..]) + rest);
      RecordsArePassed(rs[1..], rest);
      AfterTwice(RecordsIn(rest), NonEmpty(rs[1..]), first);
    }
  }

  /** Without a record that stops the reading the file runs out. */
  lemma FileWithoutLastRunsOut(rs: seq<Record>)
    requires forall i | 0 <= i < |rs| :: IsRecord(rs[i]) && !Stops(rs[i])
    ensures RecordsIn(FileBytes(rs)) == Outcome(NonEmpty(rs), false)
  {
    RecordsArePassed(rs, []);
    assert FileBytes(rs) + [] == FileBytes(rs);
  }

  lemma CompleteHasARecord(bytes: seq<bv8>)
    requires RecordsIn(bytes).complete
    ensures RecordsIn(bytes).records != []
    decreases |bytes|
  {
  }

  lemma {:induction false} FileBytesConcat(rs: seq<Record>, more: seq<Record>)
    ensures FileBytes(rs + more) == FileBytes(rs) + FileBytes(more)
    decreases |rs|
  {
    if rs == [] {
      assert rs + more == more;
    } else {
      assert (rs + more)[0] == rs[0] && (rs + more)[1..] == rs[1..] + more;
      FileBytesConcat(rs[1..], more);
    }
  }

  lemma MoreIsRead(rs: seq<Record>, n: nat, junk: seq<bv8>)
    requires n <= |rs| && forall i | 0 <= i < |rs| :: IsRecord(rs[i])
    requires forall i | 0 <= i < n :: !Stops(rs[i])
    ensures RecordsIn(FileBytes(rs) + junk) != Outcome(NonEmpty(rs[..n]), true)
  {
    var rest := FileBytes(rs[n..]) + junk;
    assert rs == rs[..n] + rs[n..];
    FileBytesConcat(rs[..n], rs[n..]);
    assert FileBytes(rs) + junk == FileBytes(rs[..n]) + rest;
    RecordsArePassed(rs[..n], rest);
    hide RecordsIn, FileBytes, NonEmpty;
    if RecordsIn(rest).complete {
      CompleteHasARecord(rest);
    }
  }

  /** The first record with the last-record bit ends the reading exactly when it has data; without data
      it is passed over like any empty record, and what follows it is read as well. */
  lemma BitEndsExactlyWithData(rs: seq<Record>, k: nat, junk: seq<bv8>)
    requires k < |rs| && rs[k].header.format & LAST_RECORD != 0
    requires forall i | 0 <= i < k :: rs[i].header.format & LAST_RECORD == 0
    requires forall i | 0 <= i < |rs| :: IsRecord(rs[i])
    ensures RecordsIn(FileBytes(rs) + junk) == Outcome(NonEmpty(rs[..k + 1]), true) <==> rs[k].data != []
  {
    hide RecordsIn, FileBytes, NonEmpty;
    if rs[k].data != [] {
      FileReadsUpToLast(rs, k, junk);
    } else {
      MoreIsRead(rs, k + 1, junk);
    }
  }

  /** A FRU file: what lies before the records is a multiple of eight bytes, and byte 5 says which. The
      first record whose format has bit 7 set and that has data is the last one read. */
  lemma FileIsRead(head: seq<bv8>, rs: seq<Record>, stop: nat, junk: seq<bv8>)
    requires |head| > 5 && |head| == 8 * head[5] as int
    requires forall i | 0 <= i < |rs| :: IsRecord(rs[i])
    requires stop < |rs| && rs[stop].data != [] && rs[stop].header.format >= 0x80
    requires forall i | 0 <= i < stop :: rs[i].data == [] || rs[i].header.format < 0x80
    ensures var file := head + (FileBytes(rs) + junk);
            |file| > 5 && file[5] != 0 && RecordsIn(RecordBytesOf(file)) == Outcome(NonEmpty(rs[..stop + 1]), true)
  {
    var file := head + (FileBytes(rs) + junk);
    assert file[5] == head[5];
    LengthIsZero(head[5]);
    assert file[8 * head[5] as int..] == FileBytes(rs) + junk;
    forall i | 0 <= i < |rs| ensures Stops(rs[i]) <==> rs[i].data != [] && rs[i].header.format >= 0x80 {
      TopBit(rs[i].header.format);
    }
    hide RecordsIn, FileBytes, NonEmpty, Stops;
    FileReadsUpToLast(rs, stop, junk);
  }

  lemma TopBit(b: bv8)
    ensures b & 0x80 != 0 <==> b >= 0x80
  {
  }
}
