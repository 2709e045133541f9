/** The carrier point-to-point connectivity record (Tables 3-13 and 3-14 of AMC.0): resource
    descriptors one after the other, walked in two ways. */
module CarrierWalk {
  import opened Descriptors

  const RESOURCE_SIZE := 2
  /** The most a walk can read past the record's length: the rest of one resource descriptor. */
  const SLACK := 766

  /** A resource id, the count byte and that many port descriptors. */
  datatype Resource = Resource(id: bv8, count: bv8, ports: seq<Port>)

  /** A record of `len` bytes at the start of a larger memory; the walks trust the counts inside. */
  predicate HasSlack(memory: seq<bv8>, len: nat) {
    len + SLACK <= |memory|
  }

  function PortAt(memory: seq<bv8>, at: nat): Port
    requires at + PORT_SIZE <= |memory|
  {
    PackedPort(memory[at], memory[at + 1], memory[at + 2])
  }

  function CountAt(memory: seq<bv8>, at: nat): (n: nat)
    requires at + RESOURCE_SIZE <= |memory|
    ensures n <= 0xFF
  {
    memory[at + 1] as int
  }

  function PortsAt(memory: seq<bv8>, at: nat, n: nat): seq<Port>
    requires at + PORT_SIZE * n <= |memory|
  {
    seq(n, k requires 0 <= k < n => PortAt(memory, at + PORT_SIZE * k))
  }

  function ResourceAt(memory: seq<bv8>, len: nat, at: nat): Resource
    requires HasSlack(memory, len) && at < len
  {
    Resource(memory[at], memory[at + 1], PortsAt(memory, at + RESOURCE_SIZE, CountAt(memory, at)))
  }

  function Next(memory: seq<bv8>, at: nat): nat
    requires at + RESOURCE_SIZE <= |memory|
  {
    at + RESOURCE_SIZE + PORT_SIZE * CountAt(memory, at)
  }

  datatype Walk = Walk(resources: seq<Resource>, end: nat)

  /** The resources from offset `at` on, as long as `margin` bytes or more are left, and where it stops.
      The physical check goes on while a byte is left, the display while five are. */
  function Walked(memory: seq<bv8>, len: nat, margin: nat, at: nat): Walk
    requires HasSlack(memory, len) && margin >= 1
    decreases len - at
  {
    if at + margin <= len then
      var rest := Walked(memory, len, margin, Next(memory, at));
      Walk([ResourceAt(memory, len, at)] + rest.resources, rest.end)
    else
      Walk([], at)
  }

  const CHECK_MARGIN := 1
  const DISPLAY_MARGIN := 5

  /** The physical check takes another resource exactly while a byte is left, even if the record ends
      inside it, and the display exactly while five are. */
  lemma WalksGoOnExactly(memory: seq<bv8>, len: nat, at: nat)
    requires HasSlack(memory, len)
    ensures Walked(memory, len, CHECK_MARGIN, at).resources != [] <==> at < len
    ensures Walked(memory, len, DISPLAY_MARGIN, at).resources != [] <==> at + 5 <= len
  {
  }

  /** The port descriptors of one resource, copied out one by one. */
  method GetResourceDescriptor(count: nat, start: nat, memory: seq<bv8>) returns (ports: array<Port>, index: nat)
    requires start + PORT_SIZE * count <= |memory|
    ensures fresh(ports) && ports[..] == PortsAt(memory, start, count) && index == start + PORT_SIZE * count
  {
    ports := new Port[count](_ => Port(0, 0, 0));
    index := start;
    var k := 0;
    while k < count
      invariant 0 <= k <= count && index == start + PORT_SIZE * k
      invariant forall i | 0 <= i < k :: ports[i] == PortAt(memory, start + PORT_SIZE * i)
    {
      ports[k] := PortAt(memory, index);
      index := index + PORT_SIZE;
      k := k + 1;
    }
  }

  /** The port descriptors of one resource, shown one by one. */
  method ShowPorts(memory: seq<bv8>, start: nat, p2pCount: nat) returns (ports: seq<Port>, offset: nat)
    requires start + PORT_SIZE * p2pCount <= |memory|
    ensures ports == PortsAt(memory, start, p2pCount) && offset == start + PORT_SIZE * p2pCount
  {
    var count := p2pCount;
    ports, offset := [], start;
    while count > 0
      invariant 0 <= count && count + |ports| == p2pCount && offset == start + PORT_SIZE * |ports|
      invariant ports == PortsAt(memory, start, |ports|)
    {
      ports := ports + [PortAt(memory, offset)];
      offset := offset + PORT_SIZE;
      count := count - 1;
    }
  }

  /** The display walk: what it shows, and the offset it ends at. */
  method DisplayCarrierConnectivity(memory: seq<bv8>, len: nat) returns (shown: seq<Resource>, offset: nat)
    requires HasSlack(memory, len)
    ensures Walk(shown, offset) == Walked(memory, len, DISPLAY_MARGIN, START_DATA_OFFSET)
  {
    shown, offset := [], START_DATA_OFFSET;
    while offset <= len - START_DATA_OFFSET
      invariant Walked(memory, len, DISPLAY_MARGIN, START_DATA_OFFSET)
             == Walk(shown + Walked(memory, len, DISPLAY_MARGIN, offset).resources, Walked(memory, len, DISPLAY_MARGIN, offset).end)
      decreases len - offset
    {
      var at := offset;
      var id, count: nat := memory[offset], memory[offset + 1] as int;
      hide PortAt, PortsAt;
      offset := offset + RESOURCE_SIZE;
      var ports;
      ports, offset := ShowPorts(memory, offset, count);
      assert Resource(id, memory[at + 1], ports) == ResourceAt(memory, len, at);
      shown := shown + [Resource(id, memory[at + 1], ports)];
    }
  }

  // ----- well-formed records -----

  predicate FitsResource(r: Resource) {
    r.count as int == |r.ports| && forall i | 0 <= i < |r.ports| :: FitsPort(r.ports[i])
  }

  function PortsBytes(ports: seq<Port>): (b: seq<bv8>)
    ensures |b| == PORT_SIZE * |ports|
  {
    if ports == [] then [] else PortBytes(ports[0]) + PortsBytes(ports[1..])
  }

  function ResourceBytes(r: Resource): seq<bv8> {
    [r.id, r.count] + PortsBytes(r.ports)
  }

  function CarrierBytes(rs: seq<Resource>): seq<bv8> {
    if rs == [] then [] else ResourceBytes(rs[0]) + CarrierBytes(rs[1..])
  }

  /** The record holds exactly `rs` from offset `at` to its end. */
  ghost predicate Holds(memory: seq<bv8>, len: nat, at: nat, rs: seq<Resource>) {
    && HasSlack(memory, len) && at <= len
    && (forall i | 0 <= i < |rs| :: FitsResource(rs[i]))
    && memory[at..len] == CarrierBytes(rs)
  }

  lemma {:induction false} PortsAreRead(memory: seq<bv8>, at: nat, ports: seq<Port>)
    requires at + PORT_SIZE * |ports| <= |memory|
    requires forall i | 0 <= i < |ports| :: FitsPort(ports[i])
    requires memory[at..at + PORT_SIZE * |ports|] == PortsBytes(ports)
    ensures PortsAt(memory, at, |ports|) == ports
    decreases |ports|
  {
    if ports != [] {
      var all, first, rest := PortsBytes(ports), PortBytes(ports[0]), PortsBytes(ports[1..]);
      assert all == first + rest;
      assert memory[at + PORT_SIZE..at + PORT_SIZE + PORT_SIZE * |ports[1..]|] == rest by {
        assert memory[at..at + PORT_SIZE * |ports|][PORT_SIZE..] == rest;
      }
      PortsAreRead(memory, at + PORT_SIZE, ports[1..]);
      assert memory[at] == all[0] == first[0] && memory[at + 1] == all[1] == first[1] && memory[at + 2] == all[2] == first[2];
      PortRoundTrip(ports[0]);
      hide PackedPort, PortBytes, PortsBytes;
      PortsAtSplits(memory, at, |ports|);
    }
  }

  lemma PortsAtSplits(memory: seq<bv8>, at: nat, n: nat)
    requires n > 0 && at + PORT_SIZE * n <= |memory|
    ensures PortsAt(memory, at, n) == [PortAt(memory, at)] + PortsAt(memory, at + PORT_SIZE, n - 1)
  {
  }

  /** The first resource of a well-formed record is read as written, and the rest follows it. */
  lemma FirstResource(memory: seq<bv8>, len: nat, at: nat, rs: seq<Resource>)
    requires Holds(memory, len, at, rs) && rs != []
    ensures at + RESOURCE_SIZE + PORT_SIZE * |rs[0].ports| <= len
    ensures ResourceAt(memory, len, at) == rs[0]
    ensures Next(memory, at) == at + RESOURCE_SIZE + PORT_SIZE * |rs[0].ports|
    ensures Holds(memory, len, Next(memory, at), rs[1..])
  {
    var r, bytes, tail := rs[0], ResourceBytes(rs[0]), CarrierBytes(rs[1..]);
    var n := |r.ports|;
    assert memory[at..len] == bytes + tail;
    HeadAndTail(memory, at, len, bytes, tail);
    hide CarrierBytes;
    assert memory[at] == bytes[0] && memory[at + 1] == bytes[1];
    assert bytes[RESOURCE_SIZE..] == PortsBytes(r.ports);
    PortsAreRead(memory, at + RESOURCE_SIZE, r.ports);
  }

  lemma HeadAndTail(memory: seq<bv8>, at: nat, len: nat, a: seq<bv8>, b: seq<bv8>)
    requires at <= len <= |memory| && memory[at..len] == a + b
    ensures at + |a| <= len && memory[at + |a|..len] == b
    ensures forall i | 0 <= i < |a| :: memory[at + i] == a[i]
    ensures forall i | 0 <= i <= |a| :: memory[at + i..at + |a|] == a[i..]
  {
    forall i | 0 <= i < |a| ensures memory[at + i] == a[i] {
      assert memory[at..len][i] == (a + b)[i];
    }
    assert memory[at + |a|..len] == memory[at..len][|a|..] == (a + b)[|a|..];
  }

  /** The walk of the physical check visits every resource of a well-formed record and ends at its length. */
  lemma {:induction false} CheckWalkVisitsAll(memory: seq<bv8>, len: nat, at: nat, rs: seq<Resource>)
    requires Holds(memory, len, at, rs)
    ensures Walked(memory, len, CHECK_MARGIN, at) == Walk(rs, len)
    decreases |rs|
  {
    if rs == [] {
      assert |memory[at..len]| == 0;
    } else {
      FirstResource(memory, len, at, rs);
      CheckWalkVisitsAll(memory, len, Next(memory, at), rs[1..]);
    }
  }

  /** The display walk visits the same resources, and ends at the same place, exactly when the last
      resource has a port: a trailing resource without ports leaves fewer than five bytes. */
  lemma {:induction false} DisplayWalkVisitsAllExactly(memory: seq<bv8>, len: nat, at: nat, rs: seq<Resource>)
    requires Holds(memory, len, at, rs)
    ensures Walked(memory, len, DISPLAY_MARGIN, at) == Walk(rs, len) <==> rs == [] || rs[|rs| - 1].ports != []
    ensures |Walked(memory, len, DISPLAY_MARGIN, at).resources| <= |rs|
    decreases |rs|
  {
    if rs == [] {
      assert |memory[at..len]| == 0;
    } else {
      FirstResource(memory, len, at, rs);
      var next := Next(memory, at);
      DisplayWalkVisitsAllExactly(memory, len, next, rs[1..]);
      if len - at < DISPLAY_MARGIN {
        ShortTail(memory, len, at, rs);
      } else if |rs| == 1 {
        assert |memory[next..len]| == 0;
      }
      hide Holds, ResourceAt, Next;
    }
  }

  /** Fewer than five bytes hold resources without ports only. */
  lemma ShortTail(memory: seq<bv8>, len: nat, at: nat, rs: seq<Resource>)
    requires Holds(memory, len, at, rs) && rs != [] && len - at < 5
    ensures rs[|rs| - 1].ports == []
    decreases |rs|
  {
    FirstResource(memory, len, at, rs);
    if |rs| > 1 {
      ShortTail(memory, len, Next(memory, at), rs[1..]);
    }
  }
}
