/** E-keying between two modules: every link of one AMC record searches the links of the other
    for the first one it is compatible with. */
module LinkMatching {
  import opened Descriptors
  import opened AmcRecords
  import opened CarrierWalk
  import opened PhysicalCheck

  const LOWER_OEM_TYPE: bv8 := 0xF0
  const UPPER_OEM_TYPE: bv8 := 0xFE

  // ----- link descriptors -----

  predicate IsOem(kind: bv8) {
    LOWER_OEM_TYPE <= kind <= UPPER_OEM_TYPE
  }

  function Bit(flag: bv8): nat {
    if flag != 0 then 1 else 0
  }

  function EnabledPorts(l: Link): nat {
    Bit(l.flag0) + Bit(l.flag1) + Bit(l.flag2) + Bit(l.flag3)
  }

  /** OEM links need a common GUID, unless neither module has any. */
  ghost predicate ShareGuid(a: seq<Guid>, b: seq<Guid>) {
    (a == [] && b == []) || exists g :: g in a && g in b
  }

  ghost predicate DescriptorsMatch(r1: Amc, i: nat, r2: Amc, j: nat)
    requires i < |r1.links| && j < |r2.links|
  {
    var a, b := r1.links[i], r2.links[j];
    && a.linkType == b.linkType
    && (IsOem(a.linkType) ==> ShareGuid(r1.guids, r2.guids))
    && a.typeExt == b.typeExt
    && a.asymMatch & b.asymMatch == 0
    && EnabledPorts(a) == EnabledPorts(b)
  }

  function Flag(l: Link, k: nat): bv8 {
    if k == 0 then l.flag0 else if k == 1 then l.flag1 else if k == 2 then l.flag2 else l.flag3
  }

  /** The lanes of a link that are in use. */
  function EnabledLanes(l: Link): set<nat> {
    set k: nat | k < 4 && Flag(l, k) != 0
  }

  /** Links match exactly when their types, extensions and numbers of enabled lanes are equal, their
      asymmetric matches have no bit in common, and OEM types, F0 to FE, come with a common GUID or none
      on either side. */
  lemma LinksMatchExactly(r1: Amc, i: nat, r2: Amc, j: nat)
    requires i < |r1.links| && j < |r2.links|
    ensures var a, b := r1.links[i], r2.links[j];
            DescriptorsMatch(r1, i, r2, j) <==>
              && a.linkType == b.linkType && a.typeExt == b.typeExt && a.asymMatch & b.asymMatch == 0
              && |EnabledLanes(a)| == |EnabledLanes(b)|
              && (0xF0 <= a.linkType <= 0xFE ==> (r1.guids == [] && r2.guids == []) || exists g :: g in r1.guids && g in r2.guids)
  {
    LanesAreCounted(r1.links[i]);
    LanesAreCounted(r2.links[j]);
    hide EnabledLanes, EnabledPorts;
  }

  lemma LanesAreCounted(l: Link)
    ensures |EnabledLanes(l)| == EnabledPorts(l)
  {
    var two := WithLane(WithLane({}, 0, l.flag0), 1, l.flag1);
    var all := WithLane(WithLane(two, 2, l.flag2), 3, l.flag3);
    forall k: nat ensures k in EnabledLanes(l) <==> k in all {
      hide WithLane, Bit;
    }
    SameSet(EnabledLanes(l), all);
    hide EnabledLanes, WithLane, Bit;
  }

  lemma SameSet(a: set<nat>, b: set<nat>)
    requires forall k: nat :: k in a <==> k in b
    ensures a == b
  {
  }

  function WithLane(lanes: set<nat>, k: nat, flag: bv8): (r: set<nat>)
    ensures forall n: nat :: n in r <==> n in lanes || (n == k && flag != 0)
    ensures k !in lanes ==> |r| == |lanes| + Bit(flag)
  {
    if flag != 0 then lanes + {k} else lanes
  }

  method CompareGuids(a: seq<Guid>, b: seq<Guid>) returns (ok: bool)
    ensures ok <==> ShareGuid(a, b)
  {
    if |a| == 0 && |b| == 0 {
      return true;
    }
    ok := false;
    var i := 0;
    while i < |a|
      invariant 0 <= i <= |a|
      invariant ok <==> exists g :: g in a[..i] && g in b
    {
      assert a[..i + 1] == a[..i] + [a[i]];
      var j := 0;
      while j < |b|
        invariant 0 <= j <= |b| && a[i] !in b[..j]
        invariant ok <==> exists g :: g in a[..i] && g in b
      {
        assert b[..j + 1] == b[..j] + [b[j]];
        if a[i] == b[j] {
          ok := true;
          break;
        }
        j := j + 1;
      }
      assert j == |b| ==> b[..j] == b;
      assert (exists g :: g in a[..i + 1] && g in b) <==> (exists g :: g in a[..i] && g in b) || a[i] in b;
      i := i + 1;
    }
    assert a[..i] == a;
  }

  method CompareAsym(a: bv8, b: bv8) returns (ok: bool)
    ensures ok <==> a & b == 0
  {
    if a == 0 && b == 0 {
      ok := true;
    } else {
      ok := a & b == 0;
    }
  }

  method CompareLinkDescriptor(r1: Amc, i: nat, r2: Amc, j: nat) returns (ok: bool)
    requires i < |r1.links| && j < |r2.links|
    ensures ok <==> DescriptorsMatch(r1, i, r2, j)
  {
    var a, b := r1.links[i], r2.links[j];
    ok := false;
    if a.linkType == b.linkType {
      if IsOem(a.linkType) {
        ok := CompareGuids(r1.guids, r2.guids);
      } else {
        ok := true;
      }
      if ok {
        if a.typeExt == b.typeExt {
          ok := CompareAsym(a.asymMatch, b.asymMatch);
          if ok {
            ok := EnabledPorts(a) == EnabledPorts(b);
          }
        } else {
          ok := false;
        }
      }
    }
  }

  // ----- pairs of links -----

  /** The carrier's record, if there is one, with the memory it lies in. */
  datatype Carrier = NoCarrier | Carrier(memory: seq<bv8>, len: nat, beyond: seq<Port>)

  predicate IsCarrier(c: Carrier) {
    c.Carrier? ==> HasSlack(c.memory, c.len) && |c.beyond| >= LANES
  }

  /** The two records, the types of the files they come from, the carrier, and what lies at channel
      indices outside a record. */
  datatype Match = Match(r1: Amc, r2: Amc, type1: int, type2: int, carrier: Carrier, stray: int -> Channel) {
    function Sides_(): Sides {
      Sides(type1, type2, r1.resource, r2.resource)
    }

    predicate BothInRange(i: int, j: int) {
      0 <= i < |r1.links| && 0 <= j < |r2.links|
    }

    /** Grouped links go with grouped links, and the descriptors match. */
    ghost predicate Alike(i: int, j: int) {
      BothInRange(i, j) && (r1.links[i].groupId == 0 <==> r2.links[j].groupId == 0) && DescriptorsMatch(r1, i, r2, j)
    }

    function ChannelAt(r: Amc, k: int): Channel {
      if 0 <= k < |r.channels| then r.channels[k] else stray(k)
    }

    /** The carrier joins these two channels. */
    ghost predicate Connected(c1: Channel, c2: Channel)
      requires IsCarrier(carrier)
    {
      carrier.Carrier? &&
      Verdict(Sides_(), c1, c2, Walked(carrier.memory, carrier.len, CHECK_MARGIN, START_DATA_OFFSET).resources,
              carrier.beyond)
    }

    /** A link's channel descriptor is found by its channel id, counted from the first link's. */
    ghost predicate Compatible(i: int, j: int)
      requires IsCarrier(carrier)
    {
      Alike(i, j) && Connected(ChannelAt(r1, Id1(i) - Id1(0)), ChannelAt(r2, Id2(j) - Id2(0)))
    }

    function Id1(i: int): int
      requires 0 <= i < |r1.links|
    {
      r1.links[i].channelId as int
    }

    function Id2(j: int): int
      requires 0 <= j < |r2.links|
    {
      r2.links[j].channelId as int
    }

    /** `j` is the first link of record 2 that link `i` of record 1 is compatible with. */
    ghost predicate FirstMatch(i: int, j: int)
      requires IsCarrier(carrier)
    {
      Compatible(i, j) && forall k | 0 <= k < j :: !Compatible(i, k)
    }

    // ----- what the search finds in its statics -----

    predicate Grouped(i: int)
      requires 0 <= i < |r1.links|
    {
      r1.links[i].groupId != 0
    }

    /** No pair of a group class has come as far as the physical check before (i, j). */
    ghost predicate Untested(grouped: bool, i: int, j: int) {
      forall a, b | Alike(a, b) && Earlier(a, b, i, j) :: Grouped(a) != grouped
    }
  }

  /** Channel `k` of a record, or what lies there if it has fewer. */
  function ChannelOf(m: Match, channels: seq<Channel>, k: int): Channel {
    if k < 0 || k >= |channels| then m.stray(k) else channels[k]
  }

  /** What makes two links compatible, in terms of the records: matching descriptors, both grouped or
      neither, and a carrier that joins their channels, which each record counts from the channel id of
      its first link. */
  lemma CompatibleExactly(m: Match, i: nat, j: nat)
    requires IsCarrier(m.carrier) && i < |m.r1.links| && j < |m.r2.links|
    ensures var a, b := m.r1.links, m.r2.links;
            m.Compatible(i, j) <==>
              && DescriptorsMatch(m.r1, i, m.r2, j) && (a[i].groupId == 0 <==> b[j].groupId == 0)
              && m.Connected(ChannelOf(m, m.r1.channels, a[i].channelId as int - a[0].channelId as int),
                             ChannelOf(m, m.r2.channels, b[j].channelId as int - b[0].channelId as int))
  {
    hide *;
    CompatibleIs(m, i, j);
    ChannelsCounted(m, i, j);
  }

  lemma CompatibleIs(m: Match, i: nat, j: nat)
    requires IsCarrier(m.carrier) && i < |m.r1.links| && j < |m.r2.links|
    ensures m.Compatible(i, j) <==>
              && DescriptorsMatch(m.r1, i, m.r2, j) && (m.r1.links[i].groupId == 0 <==> m.r2.links[j].groupId == 0)
              && m.Connected(m.ChannelAt(m.r1, m.Id1(i) - m.Id1(0)), m.ChannelAt(m.r2, m.Id2(j) - m.Id2(0)))
  {
    hide DescriptorsMatch, Match.Connected, Match.ChannelAt, Match.Id1, Match.Id2, IsCarrier;
  }

  lemma ChannelsCounted(m: Match, i: nat, j: nat)
    requires i < |m.r1.links| && j < |m.r2.links|
    ensures var a, b := m.r1.links, m.r2.links;
            && m.ChannelAt(m.r1, m.Id1(i) - m.Id1(0)) == ChannelOf(m, m.r1.channels, a[i].channelId as int - a[0].channelId as int)
            && m.ChannelAt(m.r2, m.Id2(j) - m.Id2(0)) == ChannelOf(m, m.r2.channels, b[j].channelId as int - b[0].channelId as int)
  {
    hide Match.ChannelAt, ChannelOf;
    ChannelIs(m, m.r1, m.Id1(i) - m.Id1(0));
    ChannelIs(m, m.r2, m.Id2(j) - m.Id2(0));
    assert m.Id1(i) == m.r1.links[i].channelId as int && m.Id1(0) == m.r1.links[0].channelId as int;
    assert m.Id2(j) == m.r2.links[j].channelId as int && m.Id2(0) == m.r2.links[0].channelId as int;
    hide Match.Id1, Match.Id2;
  }

  lemma ChannelIs(m: Match, r: Amc, k: int)
    ensures m.ChannelAt(r, k) == ChannelOf(m, r.channels, k)
  {
  }

  /** A carrier joins two channels exactly when there is one and the physical check accepts them, for the
      two modules' types and resource ids. */
  lemma ConnectedExactly(m: Match, c1: Channel, c2: Channel)
    requires IsCarrier(m.carrier)
    ensures m.Connected(c1, c2) <==>
            match m.carrier
            case NoCarrier => false
            case Carrier(memory, len, beyond) =>
              Verdict(Sides(m.type1, m.type2, m.r1.resource, m.r2.resource), c1, c2,
                      Walked(memory, len, CHECK_MARGIN, START_DATA_OFFSET).resources, beyond)
  {
    hide Verdict, Walked;
  }

  predicate Earlier(a: int, b: int, i: int, j: int) {
    a < i || (a == i && b < j)
  }

  /** Two function statics meant to hold the channel ids of the first links. */
  datatype Flags = Flags(first1: int, first2: int)

  /** The statics of both group classes. */
  datatype Statics = Statics(zero: Flags, grouped: Flags) {
    function Of(g: bool): Flags {
      if g then grouped else zero
    }

    function With(g: bool, f: Flags): Statics {
      if g then this.(grouped := f) else this.(zero := f)
    }
  }

  /** The statics as the program starts. */
  const RESET_STATICS := Statics(Flags(0, 0), Flags(0, 0))

  function FirstIds(m: Match): Flags
    requires m.BothInRange(0, 0)
  {
    Flags(m.Id1(0), m.Id2(0))
  }

  /** A class's flags when pair (i, j) is tested: each is set when the pair's own index is 0. */
  function Refreshed(m: Match, f: Flags, i: int, j: int): Flags
    requires m.BothInRange(i, j)
  {
    Flags(if i == 0 then m.Id1(0) else f.first1, if j == 0 then m.Id2(0) else f.first2)
  }

  /** The first pair of its class to come as far as the physical check counts channels from something
      else than the first links: it is not them, and the statics hold other ids where it sets none. */
  ghost predicate StartsWrong(m: Match, was: Statics, i: int, j: int) {
    m.Alike(i, j) && m.Untested(m.Grouped(i), i, j) && Refreshed(m, was.Of(m.Grouped(i)), i, j) != FirstIds(m)
  }

  ghost predicate NoneWrongBefore(m: Match, was: Statics, i: int, j: int) {
    forall a, b | Earlier(a, b, i, j) :: !StartsWrong(m, was, a, b)
  }

  /** The statics before pair (i, j): a class not tested yet is as it was, and the others have the first
      links' ids as long as everything was right. */
  ghost predicate Follows(m: Match, was: Statics, now: Statics, right: bool, i: int, j: int) {
    forall g: bool ::
      if m.Untested(g, i, j) then now.Of(g) == was.Of(g)
      else right && m.BothInRange(0, 0) ==> now.Of(g) == FirstIds(m)
  }

  // ----- what the search does -----

  /** What the search has come to: the statics, the pairs found, the status of the last comparison, and
      whether every channel looked at was counted from the first links. */
  datatype Found = Found(statics: Statics, pairs: seq<(nat, nat)>, status: bool, right: bool)

  ghost function Tested(m: Match, f: Found, i: nat, j: nat): Found
    requires IsCarrier(m.carrier) && m.BothInRange(i, j)
  {
    if (m.r1.links[i].groupId == 0) != (m.r2.links[j].groupId == 0) then f
    else if !DescriptorsMatch(m.r1, i, m.r2, j) then f.(status := false)
    else
      var flags := Refreshed(m, f.statics.Of(m.Grouped(i)), i, j);
      var hit := m.Connected(m.ChannelAt(m.r1, m.Id1(i) - flags.first1), m.ChannelAt(m.r2, m.Id2(j) - flags.first2));
      Found(f.statics.With(m.Grouped(i), flags), if hit then f.pairs + [(i, j)] else f.pairs, hit,
            f.right && flags == FirstIds(m))
  }

  /** Link `i` against the links of record 2 from `j` on, up to a match. */
  ghost function Inner(m: Match, f: Found, i: nat, j: nat): Found
    requires IsCarrier(m.carrier) && i < |m.r1.links|
    decreases |m.r2.links| - j
  {
    if j >= |m.r2.links| then f
    else
      var t := Tested(m, f, i, j);
      if t.pairs != f.pairs then t else Inner(m, t, i, j + 1)
  }

  ghost function Outer(m: Match, f: Found, i: nat): Found
    requires IsCarrier(m.carrier)
    decreases |m.r1.links| - i
  {
    if i >= |m.r1.links| then f else Outer(m, Inner(m, f, i, 0), i + 1)
  }

  ghost function Searched(m: Match, was: Statics): Found
    requires IsCarrier(m.carrier)
  {
    Outer(m, Found(was, [], false, true), 0)
  }

  /** One entry of the report: a match, or a link of either record listed as unmatched. */
  datatype Entry = Matching(i: nat, j: nat) | Unmatching1(i: nat) | Unmatching2(j: nat)

  predicate IsFlagged(pairs: seq<(nat, nat)>, j: nat) {
    exists p <- pairs :: p.1 == j
  }

  function Matches(pairs: seq<(nat, nat)>): seq<Entry> {
    seq(|pairs|, k requires 0 <= k < |pairs| => Matching(pairs[k].0, pairs[k].1))
  }

  function AllOfRecord1(n: nat): seq<Entry> {
    seq(n, i requires 0 <= i < n => Unmatching1(i))
  }

  function Unflagged(pairs: seq<(nat, nat)>, n: nat): seq<Entry> {
    if n == 0 then [] else Unflagged(pairs, n - 1) + if IsFlagged(pairs, n - 1) then [] else [Unmatching2(n - 1)]
  }

  /** What is displayed: the matches, then all of record 1 and what is not flagged of record 2. */
  function Report(m: Match, pairs: seq<(nat, nat)>, showMatches: bool, showUnmatched: bool): seq<Entry> {
    (if showMatches then Matches(pairs) else [])
    + (if showUnmatched then AllOfRecord1(|m.r1.links|) + Unflagged(pairs, |m.r2.links|) else [])
  }

  class Analyzer {
    var statics: Statics

    constructor ()
      ensures statics == RESET_STATICS
    {
      statics := RESET_STATICS;
    }

    /** The two channels, counted from what the statics hold. */
    method FindChannels(m: Match, i: nat, j: nat) returns (c1: Channel, c2: Channel)
      requires m.BothInRange(i, j)
      modifies this
      ensures var f := Refreshed(m, old(statics).Of(m.Grouped(i)), i, j);
              && statics == old(statics).With(m.Grouped(i), f)
              && c1 == m.ChannelAt(m.r1, m.Id1(i) - f.first1) && c2 == m.ChannelAt(m.r2, m.Id2(j) - f.first2)
    {
      var f := statics.Of(m.Grouped(i));
      if i == 0 {
        f := f.(first1 := m.Id1(i));
      }
      c1 := m.ChannelAt(m.r1, m.Id1(i) - f.first1);
      if j == 0 {
        f := f.(first2 := m.Id2(j));
      }
      c2 := m.ChannelAt(m.r2, m.Id2(j) - f.first2);
      statics := statics.With(m.Grouped(i), f);
    }

    /** One pair: the group ids, the descriptors, and the carrier between the two channels. */
    method TestPair(m: Match, i: nat, j: nat, before: bool, ghost f: Found) returns (hit: bool, status: bool)
      requires IsCarrier(m.carrier) && m.BothInRange(i, j) && f.statics == statics && f.status == before
      modifies this
      ensures var t := Tested(m, f, i, j);
              statics == t.statics && status == t.status && t.pairs == if hit then f.pairs + [(i, j)] else f.pairs
    {
      hide DescriptorsMatch, Verdict;
      hit, status := false, before;
      if (m.r1.links[i].groupId == 0) == (m.r2.links[j].groupId == 0) {
        status := CompareLinkDescriptor(m.r1, i, m.r2, j);
        if status {
          var c1, c2 := FindChannels(m, i, j);
          match m.carrier
          case NoCarrier => status := false;
          case Carrier(memory, len, beyond) =>
            status := CheckPhysicalConnectivity(m.Sides_(), c1, c2, memory, len, beyond);
          hit := status;
        }
      }
    }

    /** The inner loop: stop at the first match, if there is one. */
    method FindMatch(m: Match, i: nat, before: bool, ghost f: Found) returns (found: nat, status: bool)
      requires IsCarrier(m.carrier) && i < |m.r1.links| && f.statics == statics && f.status == before
      modifies this
      ensures found <= |m.r2.links|
      ensures var t := Inner(m, f, i, 0);
              statics == t.statics && status == t.status && t.pairs == if found < |m.r2.links| then f.pairs + [(i, found)] else f.pairs
    {
      ghost var now := f;
      found, status := 0, before;
      while found < |m.r2.links|
        invariant 0 <= found <= |m.r2.links|
        invariant now.statics == statics && now.status == status && now.pairs == f.pairs
        invariant Inner(m, now, i, found) == Inner(m, f, i, 0)
      {
        hide Tested;
        ghost var next := Tested(m, now, i, found);
        var hit, s := TestPair(m, i, found, status, now);
        status := s;
        if hit {
          assert next.pairs != f.pairs;
          return;
        }
        now := next;
        found := found + 1;
      }
    }

    /** The nested search and its report: flags, displayed entries, statics and return value. */
    method CompareLink(m: Match, showMatches: bool, showUnmatched: bool)
      returns (result: bool, flagged: array<bool>, report: seq<Entry>)
      requires IsCarrier(m.carrier)
      modifies this
      ensures var f := Searched(m, old(statics));
              && statics == f.statics && result == f.status
              && flagged.Length == |m.r2.links| && (forall j | 0 <= j < flagged.Length :: flagged[j] <==> IsFlagged(f.pairs, j))
              && report == Report(m, f.pairs, showMatches, showUnmatched)
    {
      ghost var start := Found(statics, [], false, true);
      ghost var now := start;
      flagged := new bool[|m.r2.links|](_ => false);
      result, report := false, [];
      var i := 0;
      while i < |m.r1.links|
        invariant 0 <= i <= |m.r1.links| && flagged.Length == |m.r2.links| && fresh(flagged)
        invariant now.statics == statics && now.status == result && Outer(m, now, i) == Outer(m, start, 0)
        invariant ShowsFlags(flagged[..], now.pairs) && report == if showMatches then Matches(now.pairs) else []
      {
        hide Inner, Matches, ShowsFlags;
        ghost var before, flags := now.pairs, flagged[..];
        var found, status := FindMatch(m, i, result, now);
        now, result := Inner(m, now, i, 0), status;
        if found < |m.r2.links| {
          OneMoreMatch(flags, before, i, found);
          flagged[found] := true;
          assert flagged[..] == flags[found := true];
          if showMatches {
            report := report + [Matching(i, found)];
          }
        }
        i := i + 1;
      }
      if showUnmatched {
        report := AddUnmatched(m, flagged, report, now.pairs);
      }
    }
  }

  ghost predicate ShowsFlags(flags: seq<bool>, pairs: seq<(nat, nat)>) {
    forall j | 0 <= j < |flags| :: flags[j] <==> IsFlagged(pairs, j)
  }

  lemma OneMoreMatch(flags: seq<bool>, pairs: seq<(nat, nat)>, i: nat, found: nat)
    requires ShowsFlags(flags, pairs) && found < |flags|
    ensures ShowsFlags(flags[found := true], pairs + [(i, found)])
    ensures Matches(pairs + [(i, found)]) == Matches(pairs) + [Matching(i, found)]
  {
    var more := pairs + [(i, found)];
    assert more[|pairs|] == (i, found);
    assert forall p :: p in more <==> p in pairs || p == (i, found);
  }

  /** The second part of the report. */
  method AddUnmatched(m: Match, flagged: array<bool>, matches: seq<Entry>, ghost pairs: seq<(nat, nat)>) returns (report: seq<Entry>)
    requires flagged.Length == |m.r2.links| && ShowsFlags(flagged[..], pairs)
    ensures report == matches + (AllOfRecord1(|m.r1.links|) + Unflagged(pairs, |m.r2.links|))
  {
    report := matches;
    var i := 0;
    while i < |m.r1.links|
      invariant 0 <= i <= |m.r1.links| && report == matches + AllOfRecord1(i)
    {
      report := report + [Unmatching1(i)];
      i := i + 1;
    }
    ghost var first := AllOfRecord1(i);
    var j := 0;
    while j < |m.r2.links|
      invariant 0 <= j <= |m.r2.links| && report == matches + (first + Unflagged(pairs, j))
    {
      hide IsFlagged, AllOfRecord1;
      assert flagged[j] == flagged[..][j];
      if !flagged[j] {
        report := report + [Unmatching2(j)];
      }
      j := j + 1;
    }
  }

  /** What each option shows: the pairs found, or all of record 1 and the links of record 2 in no pair. */
  lemma ReportShows(m: Match, pairs: seq<(nat, nat)>, showMatches: bool, showUnmatched: bool)
    ensures var report := Report(m, pairs, showMatches, showUnmatched);
            && (forall i: nat, j: nat :: Matching(i, j) in report <==> showMatches && (i, j) in pairs)
            && (forall i: nat :: Unmatching1(i) in report <==> showUnmatched && i < |m.r1.links|)
            && (forall j: nat :: Unmatching2(j) in report <==> showUnmatched && j < |m.r2.links| && forall i: nat :: (i, j) !in pairs)
  {
    UnflaggedAre(pairs, |m.r2.links|);
    var a, b, c := Matches(pairs), AllOfRecord1(|m.r1.links|), Unflagged(pairs, |m.r2.links|);
    forall i: nat, j: nat ensures Matching(i, j) in a <==> (i, j) in pairs {
      if (i, j) in pairs {
        var k :| 0 <= k < |pairs| && pairs[k] == (i, j);
        assert a[k] == Matching(i, j);
      }
    }
    forall i: nat ensures Unmatching1(i) in b <==> i < |m.r1.links| {
      if i < |m.r1.links| {
        assert b[i] == Unmatching1(i);
      }
    }
  }

  /** Under option "all" every link of record 2 is reported matched or unmatched and never both. */
  lemma AllReportsEachOnce(m: Match, pairs: seq<(nat, nat)>, j: nat)
    requires j < |m.r2.links|
    ensures var report := Report(m, pairs, true, true);
            (exists i: nat :: Matching(i, j) in report) <==> Unmatching2(j) !in report
  {
    UnflaggedAre(pairs, |m.r2.links|);
    var report := Report(m, pairs, true, true);
    assert forall i: nat :: Matching(i, j) in report <==> Matching(i, j) in Matches(pairs);
    if p :| p in pairs && p.1 == j {
      var k :| 0 <= k < |pairs| && pairs[k] == p;
      assert Matches(pairs)[k] == Matching(p.0, j);
    }
    if i: nat :| Matching(i, j) in Matches(pairs) {
      var k :| 0 <= k < |pairs| && Matches(pairs)[k] == Matching(i, j);
      assert pairs[k] in pairs;
    }
  }

  lemma {:induction false} UnflaggedAre(pairs: seq<(nat, nat)>, n: nat)
    ensures forall e :: e in Unflagged(pairs, n) <==> e.Unmatching2? && e.j < n && !IsFlagged(pairs, e.j)
  {
    if n > 0 {
      UnflaggedAre(pairs, n - 1);
    }
  }

  // ----- when the channels looked at are the right ones -----

  /** What holds before pair (i, j). */
  ghost predicate KeepsAt(m: Match, was: Statics, f: Found, i: int, j: int) {
    Follows(m, was, f.statics, f.right, i, j) && (f.right <==> NoneWrongBefore(m, was, i, j))
  }

  /** Before (i, j + 1) is before (i, j), or (i, j) itself. */
  lemma OnePairOn(m: Match, was: Statics, i: int, j: int)
    ensures NoneWrongBefore(m, was, i, j + 1) <==> NoneWrongBefore(m, was, i, j) && !StartsWrong(m, was, i, j)
    ensures forall g: bool :: m.Untested(g, i, j + 1) <==> m.Untested(g, i, j) && !(m.Alike(i, j) && m.Grouped(i) == g)
  {
    assert Earlier(i, j, i, j + 1);
    assert forall a, b :: Earlier(a, b, i, j + 1) <==> Earlier(a, b, i, j) || (a == i && b == j);
    hide Match.Alike, StartsWrong, Earlier;
  }

  lemma TestedKeeps(m: Match, was: Statics, f: Found, i: nat, j: nat)
    requires IsCarrier(m.carrier) && m.BothInRange(i, j) && KeepsAt(m, was, f, i, j)
    ensures KeepsAt(m, was, Tested(m, f, i, j), i, j + 1)
  {
    OnePairOn(m, was, i, j);
    hide NoneWrongBefore, Match.Untested, DescriptorsMatch, Match.Connected;
    if m.Alike(i, j) {
      var g, t := m.Grouped(i), Tested(m, f, i, j);
      var flags := Refreshed(m, f.statics.Of(g), i, j);
      assert t.right == (f.right && flags == FirstIds(m)) && t.statics == f.statics.With(g, flags);
      if m.Untested(g, i, j) {
        assert f.statics.Of(g) == was.Of(g);
      } else if f.right {
        assert f.statics.Of(g) == FirstIds(m) && flags == FirstIds(m);
      }
      forall h: bool
        ensures if m.Untested(h, i, j + 1) then t.statics.Of(h) == was.Of(h) else t.right ==> t.statics.Of(h) == FirstIds(m)
      {
        assert m.Untested(h, i, j) ==> f.statics.Of(h) == was.Of(h);
        assert h != g ==> t.statics.Of(h) == f.statics.Of(h);
      }
    }
  }

  /** Pairs the inner loop leaves out cannot be the first of a class. */
  lemma RestIsSettled(m: Match, was: Statics, f: Found, i: nat, j: nat)
    requires i < |m.r1.links| && KeepsAt(m, was, f, i, j)
    requires j >= |m.r2.links| || (j > 0 && m.Alike(i, j - 1))
    ensures KeepsAt(m, was, f, i + 1, 0)
  {
    assert forall a, b | Earlier(a, b, i, j) :: Earlier(a, b, i + 1, 0);
    assert forall a, b | Earlier(a, b, i + 1, 0) :: b < 0 || Earlier(a, b, i, j) || (a == i && b >= j);
    assert j < |m.r2.links| ==> !m.Untested(m.Grouped(i), i, j) && forall b | j <= b :: !m.Untested(m.Grouped(i), i, b);
    hide DescriptorsMatch;
  }

  lemma OnlyAlikeMatch(m: Match, f: Found, i: nat, j: nat)
    requires IsCarrier(m.carrier) && m.BothInRange(i, j)
    ensures Tested(m, f, i, j).pairs != f.pairs ==> m.Alike(i, j)
  {
    hide DescriptorsMatch, Match.Connected;
  }

  lemma {:induction false} InnerKeeps(m: Match, was: Statics, f: Found, i: nat, j: nat)
    requires IsCarrier(m.carrier) && i < |m.r1.links| && j <= |m.r2.links| && KeepsAt(m, was, f, i, j)
    ensures KeepsAt(m, was, Inner(m, f, i, j), i + 1, 0)
    decreases |m.r2.links| - j
  {
    hide KeepsAt, Tested, Match.Alike;
    if j == |m.r2.links| {
      RestIsSettled(m, was, f, i, j);
    } else {
      var t := Tested(m, f, i, j);
      TestedKeeps(m, was, f, i, j);
      OnlyAlikeMatch(m, f, i, j);
      if t.pairs != f.pairs {
        RestIsSettled(m, was, t, i, j + 1);
      } else {
        InnerKeeps(m, was, t, i, j + 1);
      }
    }
  }

  lemma {:induction false} OuterKeeps(m: Match, was: Statics, f: Found, i: nat)
    requires IsCarrier(m.carrier) && i <= |m.r1.links| && KeepsAt(m, was, f, i, 0)
    ensures KeepsAt(m, was, Outer(m, f, i), |m.r1.links|, 0)
    decreases |m.r1.links| - i
  {
    hide KeepsAt, Inner;
    if i < |m.r1.links| {
      InnerKeeps(m, was, f, i, 0);
      OuterKeeps(m, was, Inner(m, f, i, 0), i + 1);
    }
  }

  /** Every channel looked at is the right one exactly when no class starts wrong. */
  lemma ChannelsAreRightExactly(m: Match, was: Statics)
    requires IsCarrier(m.carrier)
    ensures Searched(m, was).right <==> forall i, j :: !StartsWrong(m, was, i, j)
  {
    OuterKeeps(m, was, Found(was, [], false, true), 0);
    assert forall i, j | StartsWrong(m, was, i, j) :: Earlier(i, j, |m.r1.links|, 0);
    hide Outer, Follows, StartsWrong;
  }

  /** The two first links are alike, and so are none in the group class they are not in. */
  ghost predicate FirstLinksMeet(m: Match) {
    forall i, j | m.Alike(i, j) :: m.Alike(0, 0) && m.Grouped(i) == m.Grouped(0)
  }

  /** They are for whatever an earlier search has left in the statics exactly when the first links meet. */
  lemma AlwaysRightExactlyWhenFirstLinksMeet(m: Match)
    requires IsCarrier(m.carrier)
    ensures (forall was: Statics :: Searched(m, was).right) <==> FirstLinksMeet(m)
  {
    if FirstLinksMeet(m) {
      forall was: Statics ensures Searched(m, was).right {
        ChannelsAreRightExactly(m, was);
        hide Searched;
        assert forall i, j | m.Alike(i, j) && (i, j) != (0, 0) :: Earlier(0, 0, i, j);
      }
    } else {
      var i, j := SomeLateStart(m);
      var foreign := Flags(m.Id1(0) + 1, m.Id2(0) + 1);
      var was := Statics(foreign, foreign);
      assert StartsWrong(m, was, i, j);
      ChannelsAreRightExactly(m, was);
    }
  }

  /** A class that begins with another pair. */
  lemma SomeLateStart(m: Match) returns (i: int, j: int)
    requires !FirstLinksMeet(m)
    ensures m.Alike(i, j) && m.Untested(m.Grouped(i), i, j) && (i, j) != (0, 0)
  {
    i, j :| m.Alike(i, j) && !(m.Alike(0, 0) && m.Grouped(i) == m.Grouped(0));
    var g := m.Grouped(i);
    while !m.Untested(g, i, j)
      invariant m.Alike(i, j) && m.Grouped(i) == g && !(m.Alike(0, 0) && g == m.Grouped(0))
      decreases i, j
    {
      var a, b :| m.Alike(a, b) && Earlier(a, b, i, j) && m.Grouped(a) == g;
      i, j := a, b;
    }
  }

  /** From a fresh start, and with first channel ids of 0, they always are. */
  lemma FreshStaticsServeIdsFromZero(m: Match)
    requires IsCarrier(m.carrier)
    requires m.BothInRange(0, 0) ==> m.Id1(0) == 0 && m.Id2(0) == 0
    ensures Searched(m, RESET_STATICS).right
  {
    ChannelsAreRightExactly(m, RESET_STATICS);
    hide Searched, DescriptorsMatch;
  }

  // ----- then the search finds the first matches -----

  lemma {:induction false} InnerFinds(m: Match, f: Found, i: nat, j: nat)
    requires IsCarrier(m.carrier) && i < |m.r1.links| && j <= |m.r2.links|
    requires forall k | 0 <= k < j :: !m.Compatible(i, k)
    ensures var t := Inner(m, f, i, j);
            && (t.right ==> f.right)
            && (t.right ==> FindsFirst(m, f.pairs, t.pairs, i))
    decreases |m.r2.links| - j
  {
    if j == |m.r2.links| {
      NoMatchLeft(m, i);
    } else {
      var t := Tested(m, f, i, j);
      TestedFinds(m, f, i, j);
      hide Tested, Match.Compatible, Match.FirstMatch;
      if t.pairs != f.pairs {
        if t.right {
          FirstIsFound(m, i, j);
        }
      } else if t.right {
        InnerFinds(m, t, i, j + 1);
      } else {
        RightStays(m, t, i, j + 1);
      }
    }
  }

  lemma TestedFinds(m: Match, f: Found, i: nat, j: nat)
    requires IsCarrier(m.carrier) && m.BothInRange(i, j)
    ensures var t := Tested(m, f, i, j);
            && (t.right ==> f.right)
            && (t.right ==> t.pairs == if m.Compatible(i, j) then f.pairs + [(i, j)] else f.pairs)
  {
    hide DescriptorsMatch, Match.Connected;
  }

  lemma FirstIsFound(m: Match, i: nat, j: nat)
    requires IsCarrier(m.carrier) && m.Compatible(i, j) && forall k | 0 <= k < j :: !m.Compatible(i, k)
    ensures m.FirstMatch(i, j)
  {
  }

  lemma NoMatchLeft(m: Match, i: nat)
    requires IsCarrier(m.carrier) && forall k | 0 <= k < |m.r2.links| :: !m.Compatible(i, k)
    ensures forall k :: !m.FirstMatch(i, k)
  {
  }

  /** The pairs after link `i` has been searched for. */
  ghost predicate FindsFirst(m: Match, before: seq<(nat, nat)>, after: seq<(nat, nat)>, i: nat)
    requires IsCarrier(m.carrier)
  {
    || (after == before && forall k :: !m.FirstMatch(i, k))
    || exists k: nat :: m.FirstMatch(i, k) && after == before + [(i, k)]
  }

  /** A channel that was wrong stays noticed. */
  lemma {:induction false} RightStays(m: Match, f: Found, i: nat, j: nat)
    requires IsCarrier(m.carrier) && i < |m.r1.links|
    ensures Inner(m, f, i, j).right ==> f.right
    decreases |m.r2.links| - j
  {
    if j < |m.r2.links| {
      RightStays(m, Tested(m, f, i, j), i, j + 1);
      hide DescriptorsMatch, Match.Connected;
    }
  }

  lemma {:induction false} OuterFinds(m: Match, f: Found, i: nat)
    requires IsCarrier(m.carrier) && i <= |m.r1.links|
    requires f.right ==> forall a: nat, b: nat :: (a, b) in f.pairs <==> a < i && m.FirstMatch(a, b)
    ensures var t := Outer(m, f, i);
            && (t.right ==> f.right)
            && (t.right ==> forall a: nat, b: nat :: (a, b) in t.pairs <==> m.FirstMatch(a, b))
    decreases |m.r1.links| - i
  {
    if i < |m.r1.links| {
      var t := Inner(m, f, i, 0);
      InnerFinds(m, f, i, 0);
      if t.right {
        OneMore(m, f.pairs, t.pairs, i);
      }
      hide Inner, Match.FirstMatch;
      OuterFinds(m, t, i + 1);
    }
  }

  lemma OneMore(m: Match, before: seq<(nat, nat)>, after: seq<(nat, nat)>, i: nat)
    requires IsCarrier(m.carrier) && FindsFirst(m, before, after, i)
    requires forall a: nat, b: nat :: (a, b) in before <==> a < i && m.FirstMatch(a, b)
    ensures forall a: nat, b: nat :: (a, b) in after <==> a < i + 1 && m.FirstMatch(a, b)
  {
    if k: nat :| m.FirstMatch(i, k) && after == before + [(i, k)] {
      assert after[|before|] == (i, k);
      assert forall p :: p in after <==> p in before || p == (i, k);
      assert forall b: nat :: m.FirstMatch(i, b) <==> b == k;
    }
    hide Match.Compatible;
  }

  // ----- what the search returns -----

  /** Record 2 has a link of the same group class as link `i`, from its link `j` on. */
  ghost predicate PartnerFrom(m: Match, i: nat, j: nat)
    requires i < |m.r1.links|
  {
    exists k :: j <= k < |m.r2.links| && (m.r1.links[i].groupId == 0 <==> m.r2.links[k].groupId == 0)
  }

  ghost predicate CompatibleFrom(m: Match, i: nat, j: nat)
    requires IsCarrier(m.carrier)
  {
    exists k :: j <= k && m.Compatible(i, k)
  }

  ghost predicate HasPartner(m: Match, i: nat)
    requires i < |m.r1.links|
  {
    PartnerFrom(m, i, 0)
  }

  lemma {:induction false} InnerReturns(m: Match, f: Found, i: nat, j: nat)
    requires IsCarrier(m.carrier) && i < |m.r1.links|
    ensures var t := Inner(m, f, i, j);
            t.right ==>
              t.status == if CompatibleFrom(m, i, j) then true else if PartnerFrom(m, i, j) then false else f.status
    decreases |m.r2.links| - j
  {
    assert j < |m.r2.links| ==> m.BothInRange(i, j);
    hide *;
    if j >= |m.r2.links| {
      InnerEnds(m, f, i, j);
    } else {
      InnerStep(m, f, i, j);
      FromNext(m, i, j);
      TestedReturns(m, f, i, j);
      RightStays(m, Tested(m, f, i, j), i, j + 1);
      InnerReturns(m, Tested(m, f, i, j), i, j + 1);
    }
  }

  lemma InnerEnds(m: Match, f: Found, i: nat, j: nat)
    requires IsCarrier(m.carrier) && i < |m.r1.links| && j >= |m.r2.links|
    ensures Inner(m, f, i, j) == f && !CompatibleFrom(m, i, j) && !PartnerFrom(m, i, j)
  {
    InRange(m, i);
    hide Match.Compatible, Tested;
  }

  lemma InnerStep(m: Match, f: Found, i: nat, j: nat)
    requires IsCarrier(m.carrier) && m.BothInRange(i, j)
    ensures var t := Tested(m, f, i, j);
            Inner(m, f, i, j) == if t.pairs != f.pairs then t else Inner(m, t, i, j + 1)
  {
    hide Tested;
  }

  lemma FromNext(m: Match, i: nat, j: nat)
    requires IsCarrier(m.carrier) && m.BothInRange(i, j)
    ensures CompatibleFrom(m, i, j) <==> m.Compatible(i, j) || CompatibleFrom(m, i, j + 1)
    ensures PartnerFrom(m, i, j) <==> (m.r1.links[i].groupId == 0 <==> m.r2.links[j].groupId == 0) || PartnerFrom(m, i, j + 1)
    ensures CompatibleFrom(m, i, j) ==> PartnerFrom(m, i, j)
  {
    InRange(m, i);
    hide Match.Compatible;
  }

  lemma InRange(m: Match, i: nat)
    requires IsCarrier(m.carrier)
    ensures forall k :: m.Compatible(i, k) ==>
              m.BothInRange(i, k) && (m.r1.links[i].groupId == 0 <==> m.r2.links[k].groupId == 0)
  {
    hide DescriptorsMatch, Match.Connected;
  }

  lemma TestedReturns(m: Match, f: Found, i: nat, j: nat)
    requires IsCarrier(m.carrier) && m.BothInRange(i, j)
    ensures var t := Tested(m, f, i, j);
            t.right ==>
              && (t.pairs != f.pairs <==> m.Compatible(i, j))
              && t.status == if m.r1.links[i].groupId == 0 <==> m.r2.links[j].groupId == 0 then m.Compatible(i, j) else f.status
  {
    hide DescriptorsMatch, Match.Connected;
  }

  lemma RowReturns(m: Match, f: Found, i: nat)
    requires IsCarrier(m.carrier) && i < |m.r1.links|
    ensures var t := Inner(m, f, i, 0);
            t.right ==> t.status == if HasPartner(m, i) then exists j :: m.Compatible(i, j) else f.status
  {
    InnerReturns(m, f, i, 0);
    InRange(m, i);
    hide Inner, Match.Compatible;
  }

  lemma {:induction false} OuterReturns(m: Match, f: Found, i: nat, last: nat)
    requires IsCarrier(m.carrier) && last < |m.r1.links| && HasPartner(m, last)
    requires forall a: nat | last < a < |m.r1.links| :: !HasPartner(m, a)
    ensures var t := Outer(m, f, i);
            t.right ==> t.status == if i <= last then exists j :: m.Compatible(last, j) else f.status
    decreases |m.r1.links| - i
  {
    if i < |m.r1.links| {
      assert Outer(m, f, i) == Outer(m, Inner(m, f, i, 0), i + 1);
      hide *;
      var t := Inner(m, f, i, 0);
      RowReturns(m, f, i);
      OuterReturns(m, t, i + 1, last);
      OuterRightStays(m, t, i + 1);
    }
  }

  lemma {:induction false} OuterRightStays(m: Match, f: Found, i: nat)
    requires IsCarrier(m.carrier)
    ensures Outer(m, f, i).right ==> f.right
    decreases |m.r1.links| - i
  {
    if i < |m.r1.links| {
      RightStays(m, f, i, 0);
      OuterRightStays(m, Inner(m, f, i, 0), i + 1);
      hide Inner;
    }
  }

  /** With the right channels, the status returned says no more than whether the last link of record 1
      that has a partner of its group class in record 2 is compatible with one. */
  lemma ReturnIsOfLastLink(m: Match, was: Statics, last: nat)
    requires IsCarrier(m.carrier) && Searched(m, was).right
    requires last < |m.r1.links| && HasPartner(m, last)
    requires forall a: nat | last < a < |m.r1.links| :: !HasPartner(m, a)
    ensures Searched(m, was).status <==> exists j :: m.Compatible(last, j)
  {
    OuterReturns(m, Found(was, [], false, true), 0, last);
  }

  /** With the right channels, the search finds exactly the pairs of a link of record 1 with the first
      link of record 2 it is compatible with; so a link is flagged exactly when it is some link's first. */
  lemma RightSearchFindsFirstMatches(m: Match, was: Statics)
    requires IsCarrier(m.carrier) && Searched(m, was).right
    ensures forall i: nat, j: nat :: (i, j) in Searched(m, was).pairs <==> m.FirstMatch(i, j)
    ensures forall j: nat :: IsFlagged(Searched(m, was).pairs, j) <==> exists i: nat :: m.FirstMatch(i, j)
  {
    OuterFinds(m, Found(was, [], false, true), 0);
    var pairs := Searched(m, was).pairs;
    hide Searched, Match.FirstMatch;
    forall j: nat ensures IsFlagged(pairs, j) <==> exists i: nat :: m.FirstMatch(i, j) {
      if i: nat :| m.FirstMatch(i, j) {
        assert (i, j) in pairs && (i, j).1 == j;
      }
      if p :| p in pairs && p.1 == j {
        assert (p.0, j) == p;
      }
    }
  }

  // ----- where they are not -----

  const NO_CHANNEL := Channel(DISABLE_PORT, DISABLE_PORT, DISABLE_PORT, DISABLE_PORT)
  const NEAR: bv8 := 0x81
  const FAR: bv8 := 0x82

  function PlainLink(channelId: bv8, linkType: bv8): Link {
    Link(channelId, 1, 0, 0, 0, linkType, 0, 0, 0)
  }

  /** A carrier with one connection, from port 1 of the module at site 1 to port 1 of the one at site 2. */
  function OneConnection(): seq<Resource> {
    [Resource(NEAR, 1, [Port(FAR, 1, 1)])]
  }

  function CarrierOf(rs: seq<Resource>): Carrier {
    Carrier(seq(START_DATA_OFFSET, _ => 0) + CarrierBytes(rs) + seq(SLACK, _ => 0), START_DATA_OFFSET + |CarrierBytes(rs)|,
            seq(LANES, _ => Port(0, 0, 0)))
  }

  /** Two modules: the first link of the first one is unlike the only link of the second, and the second
      link, whose channel uses port 5, is like it but not connected to it. */
  function Unconnected(): Match {
    Match(Amc([], NEAR, [NO_CHANNEL, Channel(5, DISABLE_PORT, DISABLE_PORT, DISABLE_PORT), NO_CHANNEL],
              [PlainLink(1, 2), PlainLink(2, 5)]),
          Amc([], FAR, [Channel(1, DISABLE_PORT, DISABLE_PORT, DISABLE_PORT)], [PlainLink(0, 5)]),
          1, 2, CarrierOf(OneConnection()), _ => NO_CHANNEL)
  }

  lemma CarrierHolds(rs: seq<Resource>)
    requires forall r <- rs :: FitsResource(r)
    ensures var c := CarrierOf(rs); IsCarrier(c) && Holds(c.memory, c.len, START_DATA_OFFSET, rs)
  {
    var c := CarrierOf(rs);
    assert c.memory[START_DATA_OFFSET..c.len] == CarrierBytes(rs);
    hide CarrierBytes;
  }

  /** A channel on another port than 1 is connected there exactly when its lane 0 is disabled. */
  lemma OtherPortConnects(m: Match, c1: Channel, c2: Channel)
    requires m.carrier == CarrierOf(OneConnection()) && m.Sides_() == Sides(1, 2, NEAR, FAR)
    requires c1.lane0 != 1
    ensures IsCarrier(m.carrier) && (m.Connected(c1, c2) <==> c1.lane0 == DISABLE_PORT)
  {
    var rs, c := OneConnection(), m.carrier;
    assert FitsResource(rs[0]);
    CarrierHolds(rs);
    VerdictOnWellFormed(m.Sides_(), c1, c2, c.memory, c.len, c.beyond, rs);
    hide Holds, CarrierOf, CarrierBytes, Walked;
    assert Settles(m.Sides_(), rs, 0);
    assert forall i | Settles(m.Sides_(), rs, i) :: i == 0;
    assert Lane(c1, 0) == c1.lane0 && (rs[0].ports + c.beyond)[0 + 0] == rs[0].ports[0];
    assert LinesUp(c1, c2, rs[0].ports + c.beyond, 0, NEAR) ==> c1.lane0 == 1;
    hide LinesUp;
    assert Accepts(m.Sides_(), c1, c2, rs[0], c.beyond) <==> c1.lane0 == DISABLE_PORT;
    hide Accepts;
  }

  /** With the statics as the program starts, a search can flag a link that no link is compatible with. */
  lemma FreshStaticsFlagWrongly()
    ensures var m := Unconnected();
            && IsCarrier(m.carrier) && StartsWrong(m, RESET_STATICS, 1, 0)
            && IsFlagged(Searched(m, RESET_STATICS).pairs, 0)
            && forall i: nat :: !m.FirstMatch(i, 0)
  {
    var m := Unconnected();
    NothingFits();
    SearchOfUnconnected();
    hide *;
  }

  /** Only the second link is like the other module's, and its channel is not connected to it. */
  lemma NothingFits()
    ensures var m := Unconnected();
            && IsCarrier(m.carrier) && StartsWrong(m, RESET_STATICS, 1, 0)
            && forall i: nat :: !m.FirstMatch(i, 0)
  {
    var m := Unconnected();
    OtherPortConnects(m, m.r1.channels[1], m.r2.channels[0]);
    hide Match.Connected, CarrierOf;
    assert !m.Alike(0, 0) && m.Alike(1, 0) && m.Untested(false, 1, 0);
    assert !m.Compatible(0, 0) && !m.Compatible(1, 0);
  }

  /** Counted from 0 instead of 1 its channel is the third, which is disabled and counts as connected. */
  lemma SearchOfUnconnected()
    ensures var m := Unconnected(); IsCarrier(m.carrier) && IsFlagged(Searched(m, RESET_STATICS).pairs, 0)
  {
    var m := Unconnected();
    var start := Found(RESET_STATICS, [], false, true);
    OtherPortConnects(m, m.r1.channels[2], m.r2.channels[0]);
    hide Match.Connected, CarrierOf;
    var first := Tested(m, start, 0, 0);
    assert first == start;
    assert Inner(m, start, 0, 0) == start;
    var second := Tested(m, start, 1, 0);
    assert second.pairs == [(1, 0)];
    assert Inner(m, start, 1, 0) == second;
    assert Outer(m, start, 0) == second;
    assert (1, 0) in second.pairs;
  }
}
