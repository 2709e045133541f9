/** Whether a carrier joins two modules' ports: lanes compared in turn against consecutive port
    descriptors, inside a search over one resource, inside a walk of the carrier record. */
module PhysicalCheck {
  import opened Descriptors
  import opened CarrierWalk

  const AMC_MODULE: bv8 := 0x80
  const DISABLE_PORT: bv8 := 0x1F
  const ON_CARRIER_FRU_FILE := 9
  const LANES := 4

  function Low(b: bv8): int {
    (b & 0x0F) as int
  }

  // ----- lanes -----

  function Lane(c: Channel, k: nat): bv8
    requires k < LANES
  {
    if k == 0 then c.lane0 else if k == 1 then c.lane1 else if k == 2 then c.lane2 else c.lane3
  }

  /** Lane 0 and the lanes after it up to the first disabled one. */
  function LaneCount(c: Channel): (n: nat)
    ensures 1 <= n <= LANES
    ensures forall k | 1 <= k < n :: Lane(c, k) != DISABLE_PORT
    ensures n < LANES ==> Lane(c, n) == DISABLE_PORT
  {
    if c.lane1 == DISABLE_PORT then 1 else if c.lane2 == DISABLE_PORT then 2 else if c.lane3 == DISABLE_PORT then 3 else 4
  }

  /** Port descriptors `j`, `j + 1`, ... of an AMC resource connect the two channels lane by lane:
      the first module's ports are the local ones. */
  ghost predicate LinesUpFromAmc(c1: Channel, c2: Channel, ports: seq<Port>, j: nat)
    requires j + LANES <= |ports|
  {
    forall k | 0 <= k < LaneCount(c1) :: Lane(c1, k) == ports[j + k].localPort && Lane(c2, k) == ports[j + k].remotePort
  }

  /** The same for a carrier resource, where they are the remote ones. */
  ghost predicate LinesUpFromCarrier(c1: Channel, c2: Channel, ports: seq<Port>, j: nat)
    requires j + LANES <= |ports|
  {
    forall k | 0 <= k < LaneCount(c1) :: Lane(c1, k) == ports[j + k].remotePort && Lane(c2, k) == ports[j + k].localPort
  }

  ghost predicate LinesUp(c1: Channel, c2: Channel, ports: seq<Port>, j: nat, id: bv8)
    requires j + LANES <= |ports|
  {
    if id & AMC_MODULE == AMC_MODULE then LinesUpFromAmc(c1, c2, ports, j) else LinesUpFromCarrier(c1, c2, ports, j)
  }

  /** The comparison of an AMC resource. */
  method CompareFromAmc(c1: Channel, c2: Channel, ports: seq<Port>, j: nat) returns (matched: bool)
    requires j + LANES <= |ports|
    ensures matched <==> LinesUpFromAmc(c1, c2, ports, j)
  {
    var index := j;
    matched := false;
    if c1.lane0 == ports[index].localPort && c2.lane0 == ports[index].remotePort {
      if c1.lane1 != DISABLE_PORT {
        index := index + 1;
        if c1.lane1 == ports[index].localPort && c2.lane1 == ports[index].remotePort {
          if c1.lane2 != DISABLE_PORT {
            index := index + 1;
            if c1.lane2 == ports[index].localPort && c2.lane2 == ports[index].remotePort {
              if c1.lane3 != DISABLE_PORT {
                index := index + 1;
                if c1.lane3 == ports[index].localPort && c2.lane3 == ports[index].remotePort {
                  matched := true;
                }
              } else {
                matched := true;
              }
            }
          } else {
            matched := true;
          }
        }
      } else {
        matched := true;
      }
    }
    AmcLaneByLane(c1, c2, ports, j);
  }

  /** The comparison of a carrier resource, written out a second time. */
  method CompareFromCarrier(c1: Channel, c2: Channel, ports: seq<Port>, j: nat) returns (matched: bool)
    requires j + LANES <= |ports|
    ensures matched <==> LinesUpFromCarrier(c1, c2, ports, j)
  {
    var index := j;
    matched := false;
    if c1.lane0 == ports[index].remotePort && c2.lane0 == ports[index].localPort {
      if c1.lane1 != DISABLE_PORT {
        index := index + 1;
        if c1.lane1 == ports[index].remotePort && c2.lane1 == ports[index].localPort {
          if c1.lane2 != DISABLE_PORT {
            index := index + 1;
            if c1.lane2 == ports[index].remotePort && c2.lane2 == ports[index].localPort {
              if c1.lane3 != DISABLE_PORT {
                index := index + 1;
                if c1.lane3 == ports[index].remotePort && c2.lane3 == ports[index].localPort {
                  matched := true;
                }
              } else {
                matched := true;
              }
            }
          } else {
            matched := true;
          }
        }
      } else {
        matched := true;
      }
    }
    CarrierLaneByLane(c1, c2, ports, j);
  }

  method CompareChannelDescriptor(c1: Channel, c2: Channel, ports: seq<Port>, j: nat, id: bv8) returns (matched: bool)
    requires j + LANES <= |ports|
    ensures matched <==> LinesUp(c1, c2, ports, j, id)
  {
    if id & AMC_MODULE == AMC_MODULE {
      matched := CompareFromAmc(c1, c2, ports, j);
    } else {
      matched := CompareFromCarrier(c1, c2, ports, j);
    }
  }

  lemma AmcLaneByLane(c1: Channel, c2: Channel, ports: seq<Port>, j: nat)
    requires j + LANES <= |ports|
    ensures LinesUpFromAmc(c1, c2, ports, j) <==>
      && c1.lane0 == ports[j].localPort && c2.lane0 == ports[j].remotePort
      && (LaneCount(c1) > 1 ==> c1.lane1 == ports[j + 1].localPort && c2.lane1 == ports[j + 1].remotePort)
      && (LaneCount(c1) > 2 ==> c1.lane2 == ports[j + 2].localPort && c2.lane2 == ports[j + 2].remotePort)
      && (LaneCount(c1) > 3 ==> c1.lane3 == ports[j + 3].localPort && c2.lane3 == ports[j + 3].remotePort)
  {
    assert Lane(c1, 0) == c1.lane0 && Lane(c1, 1) == c1.lane1 && Lane(c1, 2) == c1.lane2 && Lane(c1, 3) == c1.lane3;
    assert ports[j + 0] == ports[j];
  }

  lemma CarrierLaneByLane(c1: Channel, c2: Channel, ports: seq<Port>, j: nat)
    requires j + LANES <= |ports|
    ensures LinesUpFromCarrier(c1, c2, ports, j) <==>
      && c1.lane0 == ports[j].remotePort && c2.lane0 == ports[j].localPort
      && (LaneCount(c1) > 1 ==> c1.lane1 == ports[j + 1].remotePort && c2.lane1 == ports[j + 1].localPort)
      && (LaneCount(c1) > 2 ==> c1.lane2 == ports[j + 2].remotePort && c2.lane2 == ports[j + 2].localPort)
      && (LaneCount(c1) > 3 ==> c1.lane3 == ports[j + 3].remotePort && c2.lane3 == ports[j + 3].localPort)
  {
    assert Lane(c1, 0) == c1.lane0 && Lane(c1, 1) == c1.lane1 && Lane(c1, 2) == c1.lane2 && Lane(c1, 3) == c1.lane3;
    assert ports[j + 0] == ports[j];
  }

  function Swapped(ports: seq<Port>): seq<Port> {
    seq(|ports|, i requires 0 <= i < |ports| => Port(ports[i].remoteResource, ports[i].localPort, ports[i].remotePort))
  }

  /** What the two comparisons decide mirrors each other under swapping local and remote ports. */
  lemma SidesMirror(c1: Channel, c2: Channel, ports: seq<Port>, j: nat)
    requires j + LANES <= |ports|
    ensures LinesUpFromCarrier(c1, c2, Swapped(ports), j) <==> LinesUpFromAmc(c1, c2, ports, j)
    ensures LinesUpFromAmc(c1, c2, Swapped(ports), j) <==> LinesUpFromCarrier(c1, c2, ports, j)
  {
    var swapped := Swapped(ports);
    forall i | 0 <= i < |ports|
      ensures swapped[i].localPort == ports[i].remotePort && swapped[i].remotePort == ports[i].localPort
    {
    }
    hide Swapped, Lane, LaneCount;
  }

  // ----- modules -----

  /** The two sides being matched: their file types and resource ids. */
  datatype Sides = Sides(type1: int, type2: int, id1: bv8, id2: bv8)

  predicate IsOwn(s: Sides, r: Resource) {
    r.id == s.id1 || r.id == s.id2
  }

  function Site(s: Sides, r: Resource): int {
    if r.id == AMC_MODULE then (if s.type1 != ON_CARRIER_FRU_FILE then s.type1 else s.type2) else Low(r.id)
  }

  /** The resource the walk settles on: one of the two with ports, or one for either module's site. */
  predicate Chosen(s: Sides, r: Resource) {
    if IsOwn(s, r) then r.ports != [] else Site(s, r) > 0 && (Site(s, r) == s.type1 || Site(s, r) == s.type2)
  }

  /** A resource that spoils the verdict when the walk passes it. */
  predicate Faulty(s: Sides, r: Resource) {
    if IsOwn(s, r) then r.ports == [] else Site(s, r) <= 0
  }

  /** A connection of resource `id` goes between the two modules. */
  predicate Joins(s: Sides, id: bv8, p: Port) {
    if s.type1 != ON_CARRIER_FRU_FILE then
      || (s.type1 == Low(id) && s.type2 == Low(p.remoteResource))
      || (s.type2 == Low(id) && s.type1 == Low(p.remoteResource))
    else
      || (s.id2 == id && s.type2 == Low(p.remoteResource))
      || (s.type2 == Low(id) && s.id2 == p.remoteResource)
  }

  /** `beyond` is the memory after the copied descriptors, which the lanes of the last ones may run into. */
  ghost predicate Connects(s: Sides, c1: Channel, c2: Channel, r: Resource, beyond: seq<Port>)
    requires |beyond| >= LANES
  {
    exists j | 0 <= j < |r.ports| ::
      LinesUp(c1, c2, r.ports + beyond, j, r.id) && Joins(s, r.id, r.ports[j])
  }

  ghost predicate Accepts(s: Sides, c1: Channel, c2: Channel, r: Resource, beyond: seq<Port>)
    requires |beyond| >= LANES
  {
    r.ports == [] || c1.lane0 == DISABLE_PORT || Connects(s, c1, c2, r, beyond)
  }

  /** The walk comes to a resource it settles on without passing a faulty one. */
  ghost predicate Settles(s: Sides, rs: seq<Resource>, i: int) {
    0 <= i < |rs| && Chosen(s, rs[i]) && forall k | 0 <= k < i :: !Chosen(s, rs[k]) && !Faulty(s, rs[k])
  }

  /** What the check decides about a carrier record with these resources. */
  ghost predicate Verdict(s: Sides, c1: Channel, c2: Channel, rs: seq<Resource>, beyond: seq<Port>)
    requires |beyond| >= LANES
  {
    exists i :: Settles(s, rs, i) && Accepts(s, c1, c2, rs[i], beyond)
  }

  /** The search loop: the status of the last comparison, or success at the first joined match. */
  method SearchPorts(s: Sides, c1: Channel, c2: Channel, r: Resource, beyond: seq<Port>) returns (ok: bool)
    requires |beyond| >= LANES
    ensures ok <==> Accepts(s, c1, c2, r, beyond)
  {
    hide LinesUp, Joins;
    ok := true;
    var j := 0;
    while j < |r.ports|
      invariant 0 <= j <= |r.ports|
      invariant ok <==> j == 0 || c1.lane0 == DISABLE_PORT
      invariant c1.lane0 != DISABLE_PORT ==> forall i | 0 <= i < j ::
        !(LinesUp(c1, c2, r.ports + beyond, i, r.id) && Joins(s, r.id, r.ports[i]))
    {
      if c1.lane0 != DISABLE_PORT {
        var match_ := CompareChannelDescriptor(c1, c2, r.ports + beyond, j, r.id);
        hide LinesUp, Joins;
        if match_ && Joins(s, r.id, r.ports[j]) {
          return true;
        }
        ok := false;
      } else {
        ok := true;
      }
      j := j + 1;
    }
  }

  lemma NoFurther(s: Sides, c1: Channel, c2: Channel, rs: seq<Resource>, beyond: seq<Port>)
    requires |beyond| >= LANES
    requires rs != [] && !Chosen(s, rs[0])
    ensures Verdict(s, c1, c2, rs, beyond) <==> !Faulty(s, rs[0]) && Verdict(s, c1, c2, rs[1..], beyond)
  {
    hide Chosen, Faulty, Accepts;
    if Verdict(s, c1, c2, rs, beyond) {
      var i :| Settles(s, rs, i) && Accepts(s, c1, c2, rs[i], beyond);
      assert Settles(s, rs[1..], i - 1) && rs[1..][i - 1] == rs[i];
    }
    if !Faulty(s, rs[0]) && Verdict(s, c1, c2, rs[1..], beyond) {
      var i :| Settles(s, rs[1..], i) && Accepts(s, c1, c2, rs[1..][i], beyond);
      assert Settles(s, rs, i + 1);
    }
  }

  lemma Settled(s: Sides, c1: Channel, c2: Channel, rs: seq<Resource>, beyond: seq<Port>)
    requires |beyond| >= LANES
    requires rs != [] && Chosen(s, rs[0])
    ensures Verdict(s, c1, c2, rs, beyond) <==> Accepts(s, c1, c2, rs[0], beyond)
  {
    hide Accepts, Chosen;
    assert Settles(s, rs, 0);
    forall i | Settles(s, rs, i) ensures i == 0 {
    }
  }

  /** One resource of the walk: settle on it, take it as a fault, or neither. */
  method Classify(s: Sides, id: bv8, count: nat, ghost r: Resource) returns (settled: bool, faulty: bool)
    requires r.id == id && (r.ports == [] <==> count == 0)
    ensures settled <==> Chosen(s, r)
    ensures faulty <==> Faulty(s, r)
  {
    settled, faulty := false, false;
    if id == s.id1 || id == s.id2 {
      if count <= 0 {
        faulty := true;
      } else {
        settled := true;
      }
    } else {
      var site := if id == AMC_MODULE then (if s.type1 != ON_CARRIER_FRU_FILE then s.type1 else s.type2) else Low(id);
      if site > 0 {
        settled := site == s.type1 || site == s.type2;
      } else {
        faulty := true;
      }
    }
  }

  /** The physical check on a carrier record of `len` bytes at the start of `memory`: success exactly
      when the walk settles on a resource, with no faulty one before it, that accepts the channels. */
  method CheckPhysicalConnectivity(s: Sides, c1: Channel, c2: Channel, memory: seq<bv8>, len: nat, beyond: seq<Port>)
    returns (ok: bool)
    requires HasSlack(memory, len) && |beyond| >= LANES
    ensures ok <==> Verdict(s, c1, c2, Walked(memory, len, CHECK_MARGIN, START_DATA_OFFSET).resources, beyond)
  {
    var index := START_DATA_OFFSET;
    var clean := true;
    while index < len
      invariant Verdict(s, c1, c2, Walked(memory, len, CHECK_MARGIN, START_DATA_OFFSET).resources, beyond)
           <==> clean && Verdict(s, c1, c2, Walked(memory, len, CHECK_MARGIN, index).resources, beyond)
      decreases len - index
    {
      var at := index;
      var id, count: nat := memory[index], memory[index + 1] as int;
      ghost var rs := Walked(memory, len, CHECK_MARGIN, at).resources;
      ghost var r := ResourceAt(memory, len, at);
      assert rs[0] == r && rs[1..] == Walked(memory, len, CHECK_MARGIN, Next(memory, at)).resources;
      index := index + RESOURCE_SIZE;
      var settled, faulty := Classify(s, id, count, r);
      clean := clean && !faulty;
      hide Verdict, Chosen, Faulty, Accepts;
      if settled {
        var ports, _ := GetResourceDescriptor(count, index, memory);
        Settled(s, c1, c2, rs, beyond);
        var chosen := Resource(id, memory[at + 1], ports[..]);
        assert chosen == r;
        if clean {
          ok := SearchPorts(s, c1, c2, chosen, beyond);
        } else {
          ok := false;
        }
        return;
      }
      NoFurther(s, c1, c2, rs, beyond);
      index := index + PORT_SIZE * count;
    }
    ok := false;
  }

  /** On a well-formed record the resources are the ones it was written from, so the verdict is about them. */
  lemma VerdictOnWellFormed(s: Sides, c1: Channel, c2: Channel, memory: seq<bv8>, len: nat, beyond: seq<Port>, rs: seq<Resource>)
    requires |beyond| >= LANES && Holds(memory, len, START_DATA_OFFSET, rs)
    ensures Verdict(s, c1, c2, Walked(memory, len, CHECK_MARGIN, START_DATA_OFFSET).resources, beyond)
       <==> Verdict(s, c1, c2, rs, beyond)
  {
    CheckWalkVisitsAll(memory, len, START_DATA_OFFSET, rs);
  }

  // ----- what a carrier says of two modules -----

  function Lanes(c: Channel): (r: seq<bv8>)
    ensures |r| == 4
  {
    [c.lane0, c.lane1, c.lane2, c.lane3]
  }

  /** The lanes of the channels on ports `j`, `j + 1`, ... of a resource: as many as are enabled up to the
      first disabled one. The resource's own ports are the first module's if it is an AMC module. */
  ghost predicate Wired(c1: Channel, c2: Channel, ports: seq<Port>, j: nat, id: bv8)
    requires j + 4 <= |ports|
  {
    forall k: nat | k < 4 && (forall i | 1 <= i <= k :: Lanes(c1)[i] != 0x1F) ::
      if id >= 0x80 then Lanes(c1)[k] == ports[j + k].localPort && Lanes(c2)[k] == ports[j + k].remotePort
      else Lanes(c1)[k] == ports[j + k].remotePort && Lanes(c2)[k] == ports[j + k].localPort
  }

  lemma LanesAre(c: Channel, k: nat)
    requires k < 4
    ensures Lanes(c)[k] == Lane(c, k)
    ensures k < LaneCount(c) <==> forall i | 1 <= i <= k :: Lanes(c)[i] != 0x1F
  {
    var l := Lanes(c);
    assert l[0] == Lane(c, 0) && l[1] == Lane(c, 1) && l[2] == Lane(c, 2) && l[3] == Lane(c, 3);
    hide Lanes, Lane;
  }

  lemma WiredIsLinedUp(c1: Channel, c2: Channel, ports: seq<Port>, j: nat, id: bv8)
    requires j + 4 <= |ports|
    ensures LinesUp(c1, c2, ports, j, id) <==> Wired(c1, c2, ports, j, id)
  {
    HighBit(id);
    hide Lanes, Lane, LaneCount;
    forall k: nat | k < 4
      ensures k < LaneCount(c1) <==> forall i | 1 <= i <= k :: Lanes(c1)[i] != 0x1F
      ensures Lanes(c1)[k] == Lane(c1, k) && Lanes(c2)[k] == Lane(c2, k)
    {
      LanesAre(c1, k);
      LanesAre(c2, k);
    }
  }

  lemma HighBit(id: bv8)
    ensures id & 0x80 == 0x80 <==> id >= 0x80
  {
  }

  lemma LowBits(id: bv8)
    ensures Low(id) == id as int % 16
  {
    assert id & 0x0F == id % 16;
    assert (id % 16) as int == id as int % 16;
  }

  /** The two ends of a connection. Between two AMC modules they are at the two sites, either way round;
      with an on-carrier device one is the second record's resource, the other at the second site. */
  ghost predicate Ends(s: Sides, id: bv8, remote: bv8) {
    if s.type1 != 9 then multiset{id as int % 16, remote as int % 16} == multiset{s.type1, s.type2}
    else (id == s.id2 && remote as int % 16 == s.type2) || (remote == s.id2 && id as int % 16 == s.type2)
  }

  lemma EndsJoin(s: Sides, id: bv8, p: Port)
    ensures Joins(s, id, p) <==> Ends(s, id, p.remoteResource)
  {
    var x, y := id as int % 16, p.remoteResource as int % 16;
    LowBits(id);
    LowBits(p.remoteResource);
    TwoEnds(x, y, s.type1, s.type2);
    hide Low;
  }

  lemma TwoEnds(x: int, y: int, a: int, b: int)
    ensures multiset{x, y} == multiset{a, b} <==> (x == a && y == b) || (x == b && y == a)
  {
    if multiset{x, y} == multiset{a, b} {
      assert x in multiset{a, b} && y in multiset{a, b} && a in multiset{x, y} && b in multiset{x, y};
    }
    assert multiset{a, b} == multiset{b, a};
  }

  /** A resource with ports says yes exactly when lane 0 is disabled or one of its connections is between
      the two modules and carries the lanes. */
  lemma AcceptsExactly(s: Sides, c1: Channel, c2: Channel, r: Resource, beyond: seq<Port>)
    requires |beyond| >= LANES && r.ports != []
    ensures Accepts(s, c1, c2, r, beyond) <==>
            c1.lane0 == 0x1F
            || exists j | 0 <= j < |r.ports| ::
                 Wired(c1, c2, r.ports + beyond, j, r.id) && Ends(s, r.id, r.ports[j].remoteResource)
  {
    forall j | 0 <= j < |r.ports|
      ensures LinesUp(c1, c2, r.ports + beyond, j, r.id) <==> Wired(c1, c2, r.ports + beyond, j, r.id)
      ensures Joins(s, r.id, r.ports[j]) <==> Ends(s, r.id, r.ports[j].remoteResource)
    {
      WiredIsLinedUp(c1, c2, r.ports + beyond, j, r.id);
      EndsJoin(s, r.id, r.ports[j]);
    }
    hide LinesUp, Wired, Joins, Ends;
  }

  /** The site a resource stands for: the low half of its id, and for id 0x80 that of the module. */
  function SiteOf(s: Sides, id: bv8): int {
    if id == 0x80 then (if s.type1 != 9 then s.type1 else s.type2) else id as int % 16
  }

  lemma SiteIs(s: Sides, r: Resource)
    ensures Site(s, r) == SiteOf(s, r.id)
  {
    LowBits(r.id);
    hide Low;
  }

  /** One step of the walk. A resource of a third module is passed over. One of the two modules' own
      resources, or one at either site, decides; but an own one without ports, and any that stands for no
      site above 0, makes the check fail whatever follows. */
  lemma WalkStep(s: Sides, c1: Channel, c2: Channel, r: Resource, rest: seq<Resource>, beyond: seq<Port>)
    requires |beyond| >= LANES
    ensures var own, site := r.id == s.id1 || r.id == s.id2, SiteOf(s, r.id);
            Verdict(s, c1, c2, [r] + rest, beyond) <==>
              if own then r.ports != [] && Accepts(s, c1, c2, r, beyond)
              else if site <= 0 then false
              else if site == s.type1 || site == s.type2 then Accepts(s, c1, c2, r, beyond)
              else Verdict(s, c1, c2, rest, beyond)
  {
    SiteIs(s, r);
    assert ([r] + rest)[0] == r && ([r] + rest)[1..] == rest;
    var chosen, faulty := Chosen(s, r), Faulty(s, r);
    hide Verdict, Accepts, Site, SiteOf;
    if chosen {
      Settled(s, c1, c2, [r] + rest, beyond);
    } else {
      NoFurther(s, c1, c2, [r] + rest, beyond);
    }
  }

  lemma OneResourceDecides(s: Sides, c1: Channel, c2: Channel, memory: seq<bv8>, len: nat, beyond: seq<Port>, r: Resource)
    requires |beyond| >= LANES && Holds(memory, len, 5, [r]) && |r.ports| == 1 && c1.lane0 != 0x1F
    requires r.id == s.id1 || r.id == s.id2 || (SiteOf(s, r.id) > 0 && SiteOf(s, r.id) in {s.type1, s.type2})
    ensures Verdict(s, c1, c2, Walked(memory, len, CHECK_MARGIN, START_DATA_OFFSET).resources, beyond) <==>
            Wired(c1, c2, r.ports + beyond, 0, r.id) && Ends(s, r.id, r.ports[0].remoteResource)
  {
    hide Holds, Verdict, Wired, Accepts, Ends;
    VerdictOnWellFormed(s, c1, c2, memory, len, beyond, [r]);
    assert [r] + [] == [r];
    WalkStep(s, c1, c2, r, [], beyond);
    hide SiteOf;
    AcceptsExactly(s, c1, c2, r, beyond);
  }

  /** A carrier record with one connection, at one of two AMC sites, joins single-lane channels exactly when
      its other end is at the other site and their ports are the two ends; whichever site lists it. */
  lemma OneConnectionDecides(s: Sides, c1: Channel, c2: Channel, memory: seq<bv8>, len: nat, beyond: seq<Port>, r: Resource)
    requires |beyond| >= LANES && Holds(memory, len, 5, [r]) && |r.ports| == 1
    requires s.type1 != 9 && r.id > 0x80 && r.id as int % 16 > 0 && r.id as int % 16 in {s.type1, s.type2}
    requires c1.lane0 != 0x1F && c1.lane1 == 0x1F
    ensures var p := r.ports[0];
            Verdict(s, c1, c2, Walked(memory, len, CHECK_MARGIN, START_DATA_OFFSET).resources, beyond) <==>
              && c1.lane0 == p.localPort && c2.lane0 == p.remotePort
              && multiset{r.id as int % 16, p.remoteResource as int % 16} == multiset{s.type1, s.type2}
  {
    assert SiteOf(s, r.id) == r.id as int % 16;
    hide SiteOf, Verdict, Wired, Holds;
    OneResourceDecides(s, c1, c2, memory, len, beyond, r);
    OneLane(c1, c2, r.ports + beyond, r.id);
  }

  /** With an on-carrier first module one end is the resource of the second record and the other at the
      second site; the first module's port is the resource's own one only in an AMC module's list. */
  lemma OnCarrierConnectionDecides(s: Sides, c1: Channel, c2: Channel, memory: seq<bv8>, len: nat, beyond: seq<Port>, r: Resource)
    requires |beyond| >= LANES && Holds(memory, len, 5, [r]) && |r.ports| == 1
    requires s.type1 == 9 && (r.id == s.id2 || (r.id != 0x80 && r.id as int % 16 == s.type2 > 0))
    requires c1.lane0 != 0x1F && c1.lane1 == 0x1F
    ensures var p := r.ports[0];
            Verdict(s, c1, c2, Walked(memory, len, CHECK_MARGIN, START_DATA_OFFSET).resources, beyond) <==>
              && (if r.id >= 0x80 then c1.lane0 == p.localPort && c2.lane0 == p.remotePort
                  else c1.lane0 == p.remotePort && c2.lane0 == p.localPort)
              && ((r.id == s.id2 && p.remoteResource as int % 16 == s.type2)
                  || (p.remoteResource == s.id2 && r.id as int % 16 == s.type2))
  {
    assert r.id != 0x80 ==> SiteOf(s, r.id) == r.id as int % 16;
    hide SiteOf, Verdict, Wired, Holds;
    OneResourceDecides(s, c1, c2, memory, len, beyond, r);
    OneLane(c1, c2, r.ports + beyond, r.id);
  }

  lemma OneLane(c1: Channel, c2: Channel, ports: seq<Port>, id: bv8)
    requires |ports| >= 4 && c1.lane1 == 0x1F
    ensures Wired(c1, c2, ports, 0, id) <==>
            if id >= 0x80 then c1.lane0 == ports[0].localPort && c2.lane0 == ports[0].remotePort
            else c1.lane0 == ports[0].remotePort && c2.lane0 == ports[0].localPort
  {
    var zero: nat := 0;
    assert Lanes(c1)[zero] == c1.lane0 && Lanes(c2)[zero] == c2.lane0 && Lanes(c1)[1] == 0x1F && ports[0 + zero] == ports[0];
    hide Lanes;
  }
}
