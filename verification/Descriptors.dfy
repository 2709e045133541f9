/** The packed descriptors of AMC.0 FRU records, read in two ways: as little-endian bit fields
    laid over the bytes, and by shifting and masking single bytes. */
module Descriptors {
  /** Table 3-17 of AMC.0: four 5-bit lane ports in three bytes. */
  datatype Channel = Channel(lane0: bv8, lane1: bv8, lane2: bv8, lane3: bv8)

  /** Table 3-18 of AMC.0: a link descriptor in five bytes. */
  datatype Link = Link(
    channelId: bv8, flag0: bv8, flag1: bv8, flag2: bv8, flag3: bv8,
    linkType: bv8, typeExt: bv8, groupId: bv8, asymMatch: bv8)

  /** Table 3-14 of AMC.0: one end-to-end connection in three bytes. */
  datatype Port = Port(remoteResource: bv8, remotePort: bv8, localPort: bv8)

  /** In the data of a multi-record five fixed bytes come first. */
  const START_DATA_OFFSET := 5
  const CHANNEL_SIZE := 3
  const LINK_SIZE := 5
  const PORT_SIZE := 3

  /** A field of `width` bits fits below the bit it would spill into. */
  predicate FitsChannel(c: Channel) {
    c.lane0 < 32 && c.lane1 < 32 && c.lane2 < 32 && c.lane3 < 32
  }

  predicate FitsLink(l: Link) {
    l.flag0 < 2 && l.flag1 < 2 && l.flag2 < 2 && l.flag3 < 2 && l.typeExt < 16 && l.asymMatch < 4
  }

  predicate FitsPort(p: Port) {
    p.remotePort < 32 && p.localPort < 32
  }

  // ----- bit fields over a little-endian word -----

  function Word24(b0: bv8, b1: bv8, b2: bv8): bv24 {
    (b0 as bv24) | ((b1 as bv24) << 8) | ((b2 as bv24) << 16)
  }

  function Word40(b0: bv8, b1: bv8, b2: bv8, b3: bv8, b4: bv8): bv40 {
    (b0 as bv40) | ((b1 as bv40) << 8) | ((b2 as bv40) << 16) | ((b3 as bv40) << 24) | ((b4 as bv40) << 32)
  }

  function PackedChannel(b0: bv8, b1: bv8, b2: bv8): Channel {
    var n := Word24(b0, b1, b2);
    Channel((n & 0x1F) as bv8, ((n >> 5) & 0x1F) as bv8, ((n >> 10) & 0x1F) as bv8, ((n >> 15) & 0x1F) as bv8)
  }

  function PackedLink(b0: bv8, b1: bv8, b2: bv8, b3: bv8, b4: bv8): Link {
    var n := Word40(b0, b1, b2, b3, b4);
    Link((n & 0xFF) as bv8,
         ((n >> 8) & 1) as bv8, ((n >> 9) & 1) as bv8, ((n >> 10) & 1) as bv8, ((n >> 11) & 1) as bv8,
         ((n >> 12) & 0xFF) as bv8, ((n >> 20) & 0xF) as bv8, ((n >> 24) & 0xFF) as bv8, ((n >> 32) & 3) as bv8)
  }

  function PackedPort(b0: bv8, b1: bv8, b2: bv8): Port {
    var n := Word24(b0, b1, b2);
    Port((n & 0xFF) as bv8, ((n >> 8) & 0x1F) as bv8, ((n >> 13) & 0x1F) as bv8)
  }

  // ----- shifts and masks on single bytes -----

  function MaskedChannel(p0: bv8, p1: bv8, p2: bv8): Channel {
    Channel(p0 & 0x1F,
            ((p0 & 0xE0) >> 5) + ((p1 & 0x03) << 3),
            (p1 & 0x7C) >> 2,
            ((p1 & 0x80) >> 7) + ((p2 & 0x0F) << 1))
  }

  function MaskedLink(p0: bv8, p1: bv8, p2: bv8, p3: bv8, p4: bv8): Link {
    Link(p0, p1 & 0x01, (p1 & 0x02) >> 1, (p1 & 0x04) >> 2, (p1 & 0x08) >> 3,
         ((p1 & 0xF0) >> 4) + ((p2 & 0x0F) << 4), (p2 & 0xF0) >> 4, p3, p4 & 0x03)
  }

  /** Both decoders read the same channel from any three bytes. */
  lemma ChannelDecodersAgree(b0: bv8, b1: bv8, b2: bv8)
    ensures MaskedChannel(b0, b1, b2) == PackedChannel(b0, b1, b2)
    ensures FitsChannel(PackedChannel(b0, b1, b2))
  {
  }

  /** Both decoders read the same link from any five bytes. */
  lemma LinkDecodersAgree(b0: bv8, b1: bv8, b2: bv8, b3: bv8, b4: bv8)
    ensures MaskedLink(b0, b1, b2, b3, b4) == PackedLink(b0, b1, b2, b3, b4)
    ensures FitsLink(PackedLink(b0, b1, b2, b3, b4))
  {
  }

  /** Where the fields of a port descriptor lie. */
  lemma PortLayout(b0: bv8, b1: bv8, b2: bv8)
    ensures PackedPort(b0, b1, b2) == Port(b0, b1 & 0x1F, (b1 >> 5) | ((b2 & 0x03) << 3))
  {
  }

  // ----- writing descriptors, reserved bits zero -----

  function ChannelBytes(c: Channel): (r: seq<bv8>)
    ensures |r| == CHANNEL_SIZE
  {
    [c.lane0 | (c.lane1 << 5), (c.lane1 >> 3) | (c.lane2 << 2) | (c.lane3 << 7), c.lane3 >> 1]
  }

  function LinkBytes(l: Link): (r: seq<bv8>)
    ensures |r| == LINK_SIZE
  {
    [l.channelId,
     l.flag0 | (l.flag1 << 1) | (l.flag2 << 2) | (l.flag3 << 3) | (l.linkType << 4),
     (l.linkType >> 4) | (l.typeExt << 4), l.groupId, l.asymMatch]
  }

  function PortBytes(p: Port): (r: seq<bv8>)
    ensures |r| == PORT_SIZE
  {
    [p.remoteResource, p.remotePort | (p.localPort << 5), p.localPort >> 3]
  }

  lemma ChannelRoundTrip(c: Channel)
    requires FitsChannel(c)
    ensures var b := ChannelBytes(c); PackedChannel(b[0], b[1], b[2]) == c
  {
  }

  lemma LinkRoundTrip(l: Link)
    requires FitsLink(l)
    ensures var b := LinkBytes(l); PackedLink(b[0], b[1], b[2], b[3], b[4]) == l
  {
  }

  lemma PortRoundTrip(p: Port)
    requires FitsPort(p)
    ensures var b := PortBytes(p); PackedPort(b[0], b[1], b[2]) == p
  {
  }

  /** Reading and writing back clears the reserved bits and nothing else. */
  lemma ChannelReservedBits(b0: bv8, b1: bv8, b2: bv8)
    ensures ChannelBytes(PackedChannel(b0, b1, b2)) == [b0, b1, b2 & 0x0F]
  {
    ChannelDecodersAgree(b0, b1, b2);
    hide PackedChannel;
  }

  lemma LinkReservedBits(b0: bv8, b1: bv8, b2: bv8, b3: bv8, b4: bv8)
    ensures LinkBytes(PackedLink(b0, b1, b2, b3, b4)) == [b0, b1, b2, b3, b4 & 0x03]
  {
    LinkDecodersAgree(b0, b1, b2, b3, b4);
    hide PackedLink;
  }
}
