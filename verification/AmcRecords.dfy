/** AMC point-to-point connectivity records (Table 3-16 of AMC.0): the analyzer's reader with its
    derived link count, the writer it undoes, and the second reader of the FRU display. */
module AmcRecords {
  import opened Descriptors

  const GUID_SIZE := 16
  const FIXED_SIZE := 8
  const SIZE_T := 0x1_0000_0000_0000_0000

  type Guid = s: seq<bv8> | |s| == GUID_SIZE witness seq(GUID_SIZE, _ => 0)

  datatype Amc = Amc(guids: seq<Guid>, resource: bv8, channels: seq<Channel>, links: seq<Link>)

  // ----- reading -----

  /** What is left for links, in unsigned arithmetic, divided and stored in one byte. */
  function LinkCount(len: nat, guids: nat, channels: nat): (n: nat)
    ensures n <= 0xFF
  {
    (len - FIXED_SIZE - GUID_SIZE * guids - CHANNEL_SIZE * channels) % SIZE_T / LINK_SIZE % 0x100
  }

  /** As much as any record's counts can ask for. */
  const LARGEST := FIXED_SIZE + 0xFF * (GUID_SIZE + CHANNEL_SIZE + LINK_SIZE)

  /** A record at the start of a larger memory; the readers trust the counts inside. */
  predicate Reaches(data: seq<bv8>) {
    LARGEST <= |data|
  }

  function Guids(data: seq<bv8>): (n: nat)
    requires Reaches(data)
    ensures n <= 0xFF
  {
    data[START_DATA_OFFSET] as int
  }

  function Channels(data: seq<bv8>): (n: nat)
    requires Reaches(data)
    ensures n <= 0xFF
  {
    data[START_DATA_OFFSET + 2 + GUID_SIZE * Guids(data)] as int
  }

  function Links(data: seq<bv8>, len: nat): (n: nat)
    requires Reaches(data)
    ensures n <= 0xFF
  {
    LinkCount(len, Guids(data), Channels(data))
  }

  function ChannelStart(data: seq<bv8>): nat
    requires Reaches(data)
  {
    FIXED_SIZE + GUID_SIZE * Guids(data)
  }

  function LinkStart(data: seq<bv8>): nat
    requires Reaches(data)
  {
    ChannelStart(data) + CHANNEL_SIZE * Channels(data)
  }

  function End(data: seq<bv8>, len: nat): nat
    requires Reaches(data)
  {
    LinkStart(data) + LINK_SIZE * Links(data, len)
  }

  /** The reader of a record of `len` bytes stays inside it. */
  predicate StaysInside(data: seq<bv8>, len: nat)
    requires Reaches(data)
  {
    End(data, len) <= len
  }

  /** There is room for the GUIDs and channels announced; the links take what is left. */
  predicate Roomy(data: seq<bv8>, len: nat)
    requires Reaches(data)
  {
    LinkStart(data) <= len
  }

  /** The reader, which checks nothing, stays inside exactly the records with room for the GUIDs and
      channels they announce; it then stops less than one link short of the end. */
  lemma StaysInsideExactlyWhenRoomy(data: seq<bv8>, len: nat)
    requires Reaches(data) && len <= 0xFF
    ensures StaysInside(data, len) <==> Roomy(data, len)
    ensures Roomy(data, len) ==> Links(data, len) == (len - LinkStart(data)) / LINK_SIZE
    ensures Roomy(data, len) ==> End(data, len) <= len < End(data, len) + LINK_SIZE
  {
    if LinkStart(data) <= len {
      LinkCountIsExact(len, Guids(data), Channels(data));
    }
    hide LinkCount;
  }

  /** With room for the rest, neither the unsigned subtraction nor the byte wraps. */
  lemma LinkCountIsExact(len: nat, guids: nat, channels: nat)
    requires FIXED_SIZE + GUID_SIZE * guids + CHANNEL_SIZE * channels <= len <= 0xFF
    ensures LinkCount(len, guids, channels) == (len - FIXED_SIZE - GUID_SIZE * guids - CHANNEL_SIZE * channels) / LINK_SIZE
  {
  }

  function GuidAt(data: seq<bv8>, k: nat): Guid
    requires START_DATA_OFFSET + 1 + GUID_SIZE * (k + 1) <= |data|
  {
    var at := START_DATA_OFFSET + 1 + GUID_SIZE * k;
    data[at..at + GUID_SIZE]
  }

  function ChannelAt(data: seq<bv8>, at: nat): Channel
    requires at + CHANNEL_SIZE <= |data|
  {
    PackedChannel(data[at], data[at + 1], data[at + 2])
  }

  function LinkAt(data: seq<bv8>, at: nat): Link
    requires at + LINK_SIZE <= |data|
  {
    PackedLink(data[at], data[at + 1], data[at + 2], data[at + 3], data[at + 4])
  }

  function GuidsAt(data: seq<bv8>, n: nat): seq<Guid>
    requires START_DATA_OFFSET + 1 + GUID_SIZE * n <= |data|
  {
    seq(n, k requires 0 <= k < n => GuidAt(data, k))
  }

  function ChannelsAt(data: seq<bv8>, at: nat, n: nat): seq<Channel>
    requires at + CHANNEL_SIZE * n <= |data|
  {
    seq(n, k requires 0 <= k < n => ChannelAt(data, at + CHANNEL_SIZE * k))
  }

  function LinksAt(data: seq<bv8>, at: nat, n: nat): seq<Link>
    requires at + LINK_SIZE * n <= |data|
  {
    seq(n, k requires 0 <= k < n => LinkAt(data, at + LINK_SIZE * k))
  }

  function Parsed(data: seq<bv8>, len: nat): Amc
    requires Reaches(data)
  {
    Amc(GuidsAt(data, Guids(data)),
        data[START_DATA_OFFSET + 1 + GUID_SIZE * Guids(data)],
        ChannelsAt(data, ChannelStart(data), Channels(data)),
        LinksAt(data, LinkStart(data), Links(data, len)))
  }

  class AmcRecord {
    var oemGuid: array<Guid>
    var rscId: bv8
    var chDesc: array<Channel>
    var linkDesc: array<Link>

    constructor (guids: array<Guid>, resource: bv8, channels: array<Channel>, links: array<Link>)
      ensures oemGuid == guids && rscId == resource && chDesc == channels && linkDesc == links
    {
      oemGuid, rscId, chDesc, linkDesc := guids, resource, channels, links;
    }

    ghost function View(): Amc
      reads this, oemGuid, chDesc, linkDesc
    {
      Amc(oemGuid[..], rscId, chDesc[..], linkDesc[..])
    }
  }

  method ReadGuids(data: seq<bv8>, count: nat) returns (guids: array<Guid>)
    requires START_DATA_OFFSET + 1 + GUID_SIZE * count <= |data|
    ensures fresh(guids) && guids[..] == GuidsAt(data, count)
  {
    var none: Guid := seq(GUID_SIZE, _ => 0);
    guids := new Guid[count](_ => none);
    var index := START_DATA_OFFSET + 1;
    for k := 0 to count
      invariant index == START_DATA_OFFSET + 1 + GUID_SIZE * k
      invariant forall i | 0 <= i < k :: guids[i] == GuidAt(data, i)
    {
      guids[k] := data[index..index + GUID_SIZE];
      index := index + GUID_SIZE;
    }
  }

  method ReadChannels(data: seq<bv8>, start: nat, count: nat) returns (channels: array<Channel>)
    requires start + CHANNEL_SIZE * count <= |data|
    ensures fresh(channels)
    ensures channels[..] == ChannelsAt(data, start, count)
  {
    channels := new Channel[count](_ => Channel(0, 0, 0, 0));
    var index := start;
    for k := 0 to count
      invariant index == start + CHANNEL_SIZE * k
      invariant forall i | 0 <= i < k :: channels[i] == ChannelAt(data, start + CHANNEL_SIZE * i)
    {
      channels[k] := ChannelAt(data, index);
      index := index + CHANNEL_SIZE;
    }
  }

  method ReadLinks(data: seq<bv8>, start: nat, count: nat) returns (links: array<Link>)
    requires start + LINK_SIZE * count <= |data|
    ensures fresh(links)
    ensures links[..] == LinksAt(data, start, count)
  {
    links := new Link[count](_ => Link(0, 0, 0, 0, 0, 0, 0, 0, 0));
    var index := start;
    for k := 0 to count
      invariant index == start + LINK_SIZE * k
      invariant forall i | 0 <= i < k :: links[i] == LinkAt(data, start + LINK_SIZE * i)
    {
      links[k] := LinkAt(data, index);
      index := index + LINK_SIZE;
    }
  }

  /** The analyzer's reader of a record of `len` bytes; it reads what the counts announce, in the record
      or not, and reports an error when there is no link descriptor. */
  method CreateAmcP2pRecord(data: seq<bv8>, len: nat) returns (ok: bool, amc: AmcRecord)
    requires Reaches(data) && len <= 0xFF
    ensures fresh(amc) && amc.View() == Parsed(data, len)
    ensures ok <==> Links(data, len) > 0
  {
    var guidCount: nat := data[START_DATA_OFFSET] as int;
    var index := START_DATA_OFFSET + 1 + GUID_SIZE * guidCount;
    var chCount: nat := data[index + 1] as int;
    var linkCount := LinkCount(len, guidCount, chCount);
    hide LinkCount, Parsed;
    amc := ReadParts(data, len, guidCount, index, chCount, linkCount);
    ok := linkCount > 0;
  }

  method ReadParts(data: seq<bv8>, ghost len: nat, guidCount: nat, index: nat, chCount: nat, linkCount: nat) returns (amc: AmcRecord)
    requires Reaches(data)
    requires guidCount == Guids(data) && chCount == Channels(data) && linkCount == Links(data, len)
    requires index + 2 == ChannelStart(data)
    ensures fresh(amc) && amc.View() == Parsed(data, len)
  {
    hide LinkCount, Guids, Channels, Links;
    var guids := ReadGuids(data, guidCount);
    var channels := ReadChannels(data, index + 2, chCount);
    var links := ReadLinks(data, index + 2 + CHANNEL_SIZE * chCount, linkCount);
    amc := new AmcRecord(guids, data[index], channels, links);
  }

  // ----- writing -----

  predicate Fits(r: Amc) {
    && |r.guids| <= 0xFF && |r.channels| <= 0xFF
    && (forall i | 0 <= i < |r.channels| :: FitsChannel(r.channels[i]))
    && (forall i | 0 <= i < |r.links| :: FitsLink(r.links[i]))
    && Size(r) <= 0xFF
  }

  function Size(r: Amc): nat {
    FIXED_SIZE + GUID_SIZE * |r.guids| + CHANNEL_SIZE * |r.channels| + LINK_SIZE * |r.links|
  }

  function Flat(chunks: seq<seq<bv8>>): seq<bv8> {
    if chunks == [] then [] else chunks[0] + Flat(chunks[1..])
  }

  function ChannelChunks(cs: seq<Channel>): seq<seq<bv8>> {
    seq(|cs|, i requires 0 <= i < |cs| => ChannelBytes(cs[i]))
  }

  function LinkChunks(ls: seq<Link>): seq<seq<bv8>> {
    seq(|ls|, i requires 0 <= i < |ls| => LinkBytes(ls[i]))
  }

  /** `g` and `c` are the counts of GUIDs and channels as bytes. */
  predicate Counts(r: Amc, g: bv8, c: bv8) {
    g as int == |r.guids| && c as int == |r.channels|
  }

  /** The record bytes after `header` (manufacturer id, record id and version). */
  function Written(header: seq<bv8>, r: Amc, g: bv8, c: bv8): seq<bv8> {
    header + [g] + Flat(r.guids) + [r.resource, c]
    + Flat(ChannelChunks(r.channels)) + Flat(LinkChunks(r.links))
  }

  lemma {:induction false} FlatSlices(chunks: seq<seq<bv8>>, n: nat)
    requires forall i | 0 <= i < |chunks| :: |chunks[i]| == n
    ensures |Flat(chunks)| == n * |chunks|
    ensures forall k | 0 <= k < |chunks| :: n * k + n <= |Flat(chunks)| && Flat(chunks)[n * k..n * k + n] == chunks[k]
    decreases |chunks|
  {
    if chunks != [] {
      var rest := chunks[1..];
      FlatSlices(rest, n);
      var flat := Flat(chunks);
      assert flat == chunks[0] + Flat(rest);
      assert n * |chunks| == n + n * |rest|;
      forall k | 0 <= k < |chunks| ensures n * k + n <= |flat| && flat[n * k..n * k + n] == chunks[k] {
        if k > 0 {
          assert n * k == n + n * (k - 1);
          assert flat[n * k..n * k + n] == Flat(rest)[n * (k - 1)..n * (k - 1) + n];
        }
      }
    }
  }

  /** Where each part of a written record lies at the start of `data`. */
  ghost predicate LaidOut(data: seq<bv8>, r: Amc, gByte: bv8, cByte: bv8) {
    var g, c := |r.guids|, |r.channels|;
    var gs, cs, ls := Flat(r.guids), Flat(ChannelChunks(r.channels)), Flat(LinkChunks(r.links));
    && Size(r) <= |data| && |gs| == GUID_SIZE * g && |cs| == CHANNEL_SIZE * c && |ls| == LINK_SIZE * |r.links|
    && data[5] == gByte && data[6 + GUID_SIZE * g] == r.resource && data[7 + GUID_SIZE * g] == cByte
    && data[6..6 + |gs|] == gs
    && data[8 + |gs|..8 + |gs| + |cs|] == cs
    && data[8 + |gs| + |cs|..8 + |gs| + |cs| + |ls|] == ls
  }

  lemma WrittenParts(header: seq<bv8>, r: Amc, gByte: bv8, cByte: bv8, beyond: seq<bv8>)
    requires |header| == START_DATA_OFFSET && Fits(r)
    ensures |Written(header, r, gByte, cByte)| == Size(r)
    ensures LaidOut(Written(header, r, gByte, cByte) + beyond, r, gByte, cByte)
  {
    hide *;
    PartLengths(r);
    PartsLaidOut(header, r, gByte, cByte, Flat(r.guids), Flat(ChannelChunks(r.channels)), Flat(LinkChunks(r.links)), beyond);
  }

  lemma PartLengths(r: Amc)
    ensures |Flat(r.guids)| == GUID_SIZE * |r.guids|
    ensures |Flat(ChannelChunks(r.channels))| == CHANNEL_SIZE * |r.channels|
    ensures |Flat(LinkChunks(r.links))| == LINK_SIZE * |r.links|
  {
    FlatSlices(r.guids, GUID_SIZE);
    FlatSlices(ChannelChunks(r.channels), CHANNEL_SIZE);
    FlatSlices(LinkChunks(r.links), LINK_SIZE);
    hide Flat;
  }

  lemma PartsLaidOut(header: seq<bv8>, r: Amc, gByte: bv8, cByte: bv8, gs: seq<bv8>, cs: seq<bv8>, ls: seq<bv8>, beyond: seq<bv8>)
    requires |header| == START_DATA_OFFSET
    requires gs == Flat(r.guids) && cs == Flat(ChannelChunks(r.channels)) && ls == Flat(LinkChunks(r.links))
    requires |gs| == GUID_SIZE * |r.guids| && |cs| == CHANNEL_SIZE * |r.channels| && |ls| == LINK_SIZE * |r.links|
    ensures |Written(header, r, gByte, cByte)| == Size(r)
    ensures LaidOut(Written(header, r, gByte, cByte) + beyond, r, gByte, cByte)
  {
    hide Flat, ChannelChunks, LinkChunks;
    var first, counts := header + [gByte], [r.resource, cByte];
    assert first[5] == gByte && counts[1] == cByte;
    assert Written(header, r, gByte, cByte) == first + gs + counts + cs + ls;
    hide Written;
    PartsInOrder(first, gs, counts, cs, ls, beyond);
  }

  lemma PartsInOrder(a: seq<bv8>, b: seq<bv8>, c: seq<bv8>, d: seq<bv8>, e: seq<bv8>, f: seq<bv8>)
    ensures var s := a + b + c + d + e + f;
            && s[|a|..|a| + |b|] == b
            && s[|a| + |b| + |c|..|a| + |b| + |c| + |d|] == d
            && s[|a| + |b| + |c| + |d|..|a| + |b| + |c| + |d| + |e|] == e
            && (forall i | 0 <= i < |a| :: s[i] == a[i])
            && (forall i | 0 <= i < |c| :: s[|a| + |b| + i] == c[i])
  {
  }

  /** Reading undoes writing: the same record, the derived link count, and the end of the bytes exactly,
      whatever the memory holds beyond. */
  lemma ReadingUndoesWriting(header: seq<bv8>, r: Amc, g: bv8, c: bv8, beyond: seq<bv8>)
    requires |header| == 5 && Fits(r) && Counts(r, g, c) && Reaches(beyond)
    ensures var bytes := Written(header, r, g, c);
            var data, len := bytes + beyond, |bytes|;
            && len == 8 + 16 * |r.guids| + 3 * |r.channels| + 5 * |r.links|
            && StaysInside(data, len) && End(data, len) == len
            && Links(data, len) == |r.links|
            && Parsed(data, len) == r
  {
    hide Written, LaidOut, Parsed, End, Links, StaysInside;
    WrittenParts(header, r, g, c, beyond);
    PartsAreRead(Written(header, r, g, c) + beyond, r, g, c);
  }

  lemma PartsAreRead(data: seq<bv8>, r: Amc, g: bv8, c: bv8)
    requires LaidOut(data, r, g, c) && Fits(r) && Counts(r, g, c) && Reaches(data)
    ensures var len := Size(r);
            StaysInside(data, len) && End(data, len) == len && Links(data, len) == |r.links| && Parsed(data, len) == r
  {
    hide *;
    PartsFit(r);
    PartsArePlaced(data, r, g, c);
    GuidsRead(data, r.guids);
    ChannelsRead(data, ChannelStart(data), r.channels);
    LinksRead(data, LinkStart(data), r.links);
    PartsMakeRecord(data, r);
  }

  lemma PartsFit(r: Amc)
    requires Fits(r)
    ensures forall i | 0 <= i < |r.channels| :: FitsChannel(r.channels[i])
    ensures forall i | 0 <= i < |r.links| :: FitsLink(r.links[i])
  {
    hide FitsChannel, FitsLink;
  }

  lemma PartsArePlaced(data: seq<bv8>, r: Amc, g: bv8, c: bv8)
    requires LaidOut(data, r, g, c) && Fits(r) && Counts(r, g, c) && Reaches(data)
    ensures StaysInside(data, Size(r)) && End(data, Size(r)) == Size(r) <= |data|
    ensures Guids(data) == |r.guids| && Channels(data) == |r.channels| && Links(data, Size(r)) == |r.links|
    ensures 6 + GUID_SIZE * |r.guids| < |data|
    ensures r.resource == data[START_DATA_OFFSET + 1 + GUID_SIZE * |r.guids|]
    ensures data[6..6 + GUID_SIZE * |r.guids|] == Flat(r.guids)
    ensures var at := ChannelStart(data);
            at + CHANNEL_SIZE * |r.channels| <= |data| && data[at..at + CHANNEL_SIZE * |r.channels|] == Flat(ChannelChunks(r.channels))
    ensures var at := LinkStart(data);
            at + LINK_SIZE * |r.links| <= |data| && data[at..at + LINK_SIZE * |r.links|] == Flat(LinkChunks(r.links))
  {
    CountsPlaced(data, r, g, c);
    hide *;
    SlicesPlaced(data, r, g, c);
  }

  lemma CountsPlaced(data: seq<bv8>, r: Amc, g: bv8, c: bv8)
    requires LaidOut(data, r, g, c) && Fits(r) && Counts(r, g, c) && Reaches(data)
    ensures StaysInside(data, Size(r)) && End(data, Size(r)) == Size(r) <= |data|
    ensures Guids(data) == |r.guids| && Channels(data) == |r.channels| && Links(data, Size(r)) == |r.links|
    ensures 6 + GUID_SIZE * |r.guids| < |data|
    ensures r.resource == data[START_DATA_OFFSET + 1 + GUID_SIZE * |r.guids|]
  {
    hide LaidOut, Flat, ChannelChunks, LinkChunks, FitsChannel, FitsLink, StaysInside, End, Links, Guids, Channels;
    CountsLaidOut(data, r, g, c);
    CountsRead(data, r);
  }

  lemma SlicesPlaced(data: seq<bv8>, r: Amc, g: bv8, c: bv8)
    requires LaidOut(data, r, g, c) && Reaches(data) && Size(r) <= |data|
    requires Guids(data) == |r.guids| && Channels(data) == |r.channels|
    ensures 6 + GUID_SIZE * |r.guids| <= |data| && data[6..6 + GUID_SIZE * |r.guids|] == Flat(r.guids)
    ensures var at := ChannelStart(data);
            at + CHANNEL_SIZE * |r.channels| <= |data| && data[at..at + CHANNEL_SIZE * |r.channels|] == Flat(ChannelChunks(r.channels))
    ensures var at := LinkStart(data);
            at + LINK_SIZE * |r.links| <= |data| && data[at..at + LINK_SIZE * |r.links|] == Flat(LinkChunks(r.links))
  {
    hide LaidOut, Flat, ChannelChunks, LinkChunks, Guids, Channels, ChannelStart, LinkStart;
    SlicesLaidOut(data, r, g, c);
    Starts(data);
  }

  lemma Starts(data: seq<bv8>)
    requires Reaches(data)
    ensures ChannelStart(data) == 8 + GUID_SIZE * Guids(data)
    ensures LinkStart(data) == 8 + GUID_SIZE * Guids(data) + CHANNEL_SIZE * Channels(data)
  {
  }

  lemma CountsLaidOut(data: seq<bv8>, r: Amc, g: bv8, c: bv8)
    requires LaidOut(data, r, g, c)
    ensures Size(r) <= |data| && data[5] == g && data[7 + GUID_SIZE * |r.guids|] == c
    ensures data[6 + GUID_SIZE * |r.guids|] == r.resource
  {
    hide Flat, ChannelChunks, LinkChunks;
  }

  lemma SlicesLaidOut(data: seq<bv8>, r: Amc, g: bv8, c: bv8)
    requires LaidOut(data, r, g, c) && Size(r) <= |data|
    ensures data[6..6 + GUID_SIZE * |r.guids|] == Flat(r.guids)
    ensures var at := 8 + GUID_SIZE * |r.guids|;
            data[at..at + CHANNEL_SIZE * |r.channels|] == Flat(ChannelChunks(r.channels))
    ensures var at := 8 + GUID_SIZE * |r.guids| + CHANNEL_SIZE * |r.channels|;
            data[at..at + LINK_SIZE * |r.links|] == Flat(LinkChunks(r.links))
  {
    hide Flat, ChannelChunks, LinkChunks;
  }

  lemma CountsRead(data: seq<bv8>, r: Amc)
    requires Fits(r) && Reaches(data)
    requires data[5] as int == |r.guids| && data[7 + GUID_SIZE * |r.guids|] as int == |r.channels|
    ensures StaysInside(data, Size(r)) && End(data, Size(r)) == Size(r)
    ensures Guids(data) == |r.guids| && Channels(data) == |r.channels| && Links(data, Size(r)) == |r.links|
  {
    hide LinkCount;
    StaysInsideExactlyWhenRoomy(data, Size(r));
  }

  lemma PartsMakeRecord(data: seq<bv8>, r: Amc)
    requires Reaches(data)
    requires Guids(data) == |r.guids| && Channels(data) == |r.channels| && Links(data, Size(r)) == |r.links|
    requires r.resource == data[START_DATA_OFFSET + 1 + GUID_SIZE * |r.guids|]
    requires GuidsAt(data, |r.guids|) == r.guids
    requires ChannelsAt(data, ChannelStart(data), |r.channels|) == r.channels
    requires LinksAt(data, LinkStart(data), |r.links|) == r.links
    ensures Parsed(data, Size(r)) == r
  {
    hide Links;
  }

  lemma GuidsRead(data: seq<bv8>, guids: seq<Guid>)
    requires 6 + GUID_SIZE * |guids| <= |data| && data[6..6 + GUID_SIZE * |guids|] == Flat(guids)
    ensures GuidsAt(data, |guids|) == guids
  {
    FlatSlices(guids, GUID_SIZE);
    hide Flat;
    forall k | 0 <= k < |guids| ensures GuidAt(data, k) == guids[k] {
      SubSlice(data, 6, GUID_SIZE * |guids|, GUID_SIZE * k, GUID_SIZE);
    }
  }

  lemma SubSlice(data: seq<bv8>, at: nat, n: nat, i: nat, len: nat)
    requires at + n <= |data| && i + len <= n
    ensures data[at..at + n][i..i + len] == data[at + i..at + i + len]
  {
    var a, b := data[at..at + n][i..i + len], data[at + i..at + i + len];
    forall j | 0 <= j < len ensures a[j] == b[j] {
      assert a[j] == data[at + i + j];
    }
  }

  lemma ChannelsRead(data: seq<bv8>, at: nat, channels: seq<Channel>)
    requires forall i | 0 <= i < |channels| :: FitsChannel(channels[i])
    requires at + CHANNEL_SIZE * |channels| <= |data|
    requires data[at..at + CHANNEL_SIZE * |channels|] == Flat(ChannelChunks(channels))
    ensures ChannelsAt(data, at, |channels|) == channels
  {
    FlatSlices(ChannelChunks(channels), CHANNEL_SIZE);
    hide Flat;
    forall k | 0 <= k < |channels| ensures ChannelAt(data, at + CHANNEL_SIZE * k) == channels[k] {
      assert ChannelChunks(channels)[k] == ChannelBytes(channels[k]);
      SliceIsChannel(data, at, Flat(ChannelChunks(channels)), k, channels[k]);
    }
  }

  lemma LinksRead(data: seq<bv8>, at: nat, links: seq<Link>)
    requires forall i | 0 <= i < |links| :: FitsLink(links[i])
    requires at + LINK_SIZE * |links| <= |data|
    requires data[at..at + LINK_SIZE * |links|] == Flat(LinkChunks(links))
    ensures LinksAt(data, at, |links|) == links
  {
    FlatSlices(LinkChunks(links), LINK_SIZE);
    hide Flat;
    forall k | 0 <= k < |links| ensures LinkAt(data, at + LINK_SIZE * k) == links[k] {
      assert LinkChunks(links)[k] == LinkBytes(links[k]);
      SliceIsLink(data, at, Flat(LinkChunks(links)), k, links[k]);
    }
  }

  lemma SliceIsChannel(data: seq<bv8>, at: nat, cs: seq<bv8>, k: nat, c: Channel)
    requires at + |cs| <= |data| && data[at..at + |cs|] == cs && FitsChannel(c)
    requires CHANNEL_SIZE * k + CHANNEL_SIZE <= |cs| && cs[CHANNEL_SIZE * k..CHANNEL_SIZE * k + CHANNEL_SIZE] == ChannelBytes(c)
    ensures ChannelAt(data, at + CHANNEL_SIZE * k) == c
  {
    ChannelRoundTrip(c);
    var b, i := ChannelBytes(c), CHANNEL_SIZE * k;
    hide PackedChannel, ChannelBytes;
    assert b[0] == cs[i] == data[at + i] && b[1] == cs[i + 1] == data[at + i + 1] && b[2] == cs[i + 2] == data[at + i + 2];
  }

  lemma SliceIsLink(data: seq<bv8>, at: nat, ls: seq<bv8>, k: nat, l: Link)
    requires at + |ls| <= |data| && data[at..at + |ls|] == ls && FitsLink(l)
    requires LINK_SIZE * k + LINK_SIZE <= |ls| && ls[LINK_SIZE * k..LINK_SIZE * k + LINK_SIZE] == LinkBytes(l)
    ensures LinkAt(data, at + LINK_SIZE * k) == l
  {
    LinkRoundTrip(l);
    var b, i := LinkBytes(l), LINK_SIZE * k;
    hide PackedLink, LinkBytes;
    assert b[0] == ls[i] == data[at + i] && b[1] == ls[i + 1] == data[at + i + 1] && b[2] == ls[i + 2] == data[at + i + 2];
    assert b[3] == ls[i + 3] == data[at + i + 3] && b[4] == ls[i + 4] == data[at + i + 4];
  }

  // ----- the second reader -----

  function ShownChannels(memory: seq<bv8>, dlen: nat, i: nat, n: nat): seq<Channel>
    requires Reaches(memory) && dlen <= 0xFF
    decreases n
  {
    if n == 0 || i >= dlen then []
    else [MaskedChannel(memory[i], memory[i + 1], memory[i + 2])] + ShownChannels(memory, dlen, i + CHANNEL_SIZE, n - 1)
  }

  function ShownLinks(memory: seq<bv8>, dlen: nat, i: nat): seq<Link>
    requires Reaches(memory) && dlen <= 0xFF
    decreases dlen - i
  {
    if i >= dlen then []
    else [MaskedLink(memory[i], memory[i + 1], memory[i + 2], memory[i + 3], memory[i + 4])]
         + ShownLinks(memory, dlen, i + LINK_SIZE)
  }

  method ShowChannels(memory: seq<bv8>, dlen: nat, start: nat, n: nat) returns (channels: seq<Channel>, i: nat)
    requires Reaches(memory) && dlen <= 0xFF
    ensures channels == ShownChannels(memory, dlen, start, n) && i == start + CHANNEL_SIZE * |channels|
  {
    channels := [];
    i := start;
    var j := 0;
    while j < n
      invariant 0 <= j == |channels| <= n && i == start + CHANNEL_SIZE * j
      invariant ShownChannels(memory, dlen, start, n) == channels + ShownChannels(memory, dlen, i, n - j)
    {
      if i >= dlen {
        break;
      }
      channels := channels + [MaskedChannel(memory[i], memory[i + 1], memory[i + 2])];
      i := i + CHANNEL_SIZE;
      j := j + 1;
    }
  }

  method ShowLinks(memory: seq<bv8>, dlen: nat, start: nat) returns (links: seq<Link>)
    requires Reaches(memory) && dlen <= 0xFF
    ensures links == ShownLinks(memory, dlen, start)
  {
    links := [];
    var i := start;
    while i < dlen
      invariant ShownLinks(memory, dlen, start) == links + ShownLinks(memory, dlen, i)
      decreases dlen - i
    {
      links := links + [MaskedLink(memory[i], memory[i + 1], memory[i + 2], memory[i + 3], memory[i + 4])];
      i := i + LINK_SIZE;
    }
  }

  /** The FRU display's reader of a record of `dlen` bytes: the GUIDs unchecked, the channels that start
      before the end, and links up to the end, which the last one may run over. */
  method ShowAmcP2p(memory: seq<bv8>, dlen: nat) returns (channels: seq<Channel>, links: seq<Link>)
    requires Reaches(memory) && dlen <= 0xFF
    ensures channels == ShownChannels(memory, dlen, ChannelStart(memory), Channels(memory))
    ensures links == ShownLinks(memory, dlen, ChannelStart(memory) + CHANNEL_SIZE * |channels|)
  {
    var i := START_DATA_OFFSET;
    var n: nat := memory[i] as int;
    i := i + 1;
    for j := 0 to n
      invariant i == START_DATA_OFFSET + 1 + GUID_SIZE * j
    {
      i := i + GUID_SIZE;
    }
    i := i + 1;
    n := memory[i] as int;
    i := i + 1;
    channels, i := ShowChannels(memory, dlen, i, n);
    links := ShowLinks(memory, dlen, i);
  }

  /** The channels the display shows are the ones the analyzer reads, up to where they start behind the end. */
  lemma {:induction false} ShownChannelsAre(memory: seq<bv8>, dlen: nat, i: nat, n: nat)
    requires Reaches(memory) && dlen <= 0xFF && i + CHANNEL_SIZE * n <= |memory|
    ensures var shown := ShownChannels(memory, dlen, i, n);
            && |shown| <= n && shown == ChannelsAt(memory, i, |shown|)
            && (|shown| == n <==> n == 0 || i + CHANNEL_SIZE * (n - 1) < dlen)
            && (|shown| < n ==> dlen <= i + CHANNEL_SIZE * |shown|)
    decreases n
  {
    if n > 0 && i < dlen {
      NextShownChannel(memory, dlen, i, n);
      hide *;
      ShownChannelsAre(memory, dlen, i + CHANNEL_SIZE, n - 1);
      ChannelsSplit(memory, i, |ShownChannels(memory, dlen, i, n)|);
    }
  }

  lemma NextShownChannel(memory: seq<bv8>, dlen: nat, i: nat, n: nat)
    requires Reaches(memory) && i < dlen <= 0xFF && n > 0
    ensures ShownChannels(memory, dlen, i, n) == [ChannelAt(memory, i)] + ShownChannels(memory, dlen, i + CHANNEL_SIZE, n - 1)
  {
    ChannelDecodersAgree(memory[i], memory[i + 1], memory[i + 2]);
    hide MaskedChannel, PackedChannel;
  }

  lemma ChannelsSplit(memory: seq<bv8>, i: nat, n: nat)
    requires i + CHANNEL_SIZE * n <= |memory| && n > 0
    ensures ChannelsAt(memory, i, n) == [ChannelAt(memory, i)] + ChannelsAt(memory, i + CHANNEL_SIZE, n - 1)
  {
    hide ChannelAt;
  }

  lemma NextShownLink(memory: seq<bv8>, dlen: nat, i: nat, n: nat)
    requires Reaches(memory) && dlen <= 0xFF && i + LINK_SIZE * n <= dlen && n > 0
    ensures ShownLinks(memory, dlen, i) == [LinkAt(memory, i)] + ShownLinks(memory, dlen, i + LINK_SIZE)
    ensures LinksAt(memory, i, n) == [LinkAt(memory, i)] + LinksAt(memory, i + LINK_SIZE, n - 1)
  {
    LinkDecodersAgree(memory[i], memory[i + 1], memory[i + 2], memory[i + 3], memory[i + 4]);
    hide MaskedLink, PackedLink;
  }

  /** The display's reader reads the same links from the same place, and one more if bytes remain. */
  lemma {:induction false} ShownLinksAre(memory: seq<bv8>, dlen: nat, i: nat, n: nat)
    requires Reaches(memory) && dlen <= 0xFF && i + LINK_SIZE * n <= dlen < i + LINK_SIZE * n + LINK_SIZE
    ensures var shown := ShownLinks(memory, dlen, i);
            && |shown| == n + (if i + LINK_SIZE * n == dlen then 0 else 1)
            && shown[..n] == LinksAt(memory, i, n)
    decreases n
  {
    if n > 0 {
      NextShownLink(memory, dlen, i, n);
      hide *;
      ShownLinksAre(memory, dlen, i + LINK_SIZE, n - 1);
    } else if i < dlen {
      assert ShownLinks(memory, dlen, i + LINK_SIZE) == [];
    }
  }

  /** The two readers agree on the channels exactly when the last one starts inside the record. They
      agree on the links, in a record with room for the parts before them, exactly when its length
      leaves no partial link, and without that room exactly when the analyzer's count comes to zero. */
  lemma ReadersAgreeExactlyOnWholeLinks(memory: seq<bv8>, dlen: nat)
    requires Reaches(memory) && dlen <= 0xFF
    ensures var channels := ShownChannels(memory, dlen, ChannelStart(memory), Channels(memory));
            var links := ShownLinks(memory, dlen, ChannelStart(memory) + CHANNEL_SIZE * |channels|);
            && (channels == Parsed(memory, dlen).channels
                <==> Channels(memory) == 0 || ChannelStart(memory) + CHANNEL_SIZE * (Channels(memory) - 1) < dlen)
            && (links == Parsed(memory, dlen).links
                <==> if Roomy(memory, dlen) then End(memory, dlen) == dlen else Links(memory, dlen) == 0)
  {
    hide ShownChannels, LinkCount;
    var channels := ShownChannels(memory, dlen, ChannelStart(memory), Channels(memory));
    var at := ChannelStart(memory) + CHANNEL_SIZE * |channels|;
    ShownChannelsAre(memory, dlen, ChannelStart(memory), Channels(memory));
    assert |Parsed(memory, dlen).channels| == Channels(memory);
    assert |Parsed(memory, dlen).links| == Links(memory, dlen);
    StaysInsideExactlyWhenRoomy(memory, dlen);
    if Roomy(memory, dlen) {
      assert at == LinkStart(memory);
      ShownLinksAre(memory, dlen, at, Links(memory, dlen));
      var shown := ShownLinks(memory, dlen, at);
      if End(memory, dlen) == dlen {
        assert shown == shown[..Links(memory, dlen)];
      }
    } else {
      assert ShownLinks(memory, dlen, at) == [];
    }
  }
}
