/**
  Where the byte-wise range tests of internal/network agree with containment,
  and where they do not.
 */
module Containment {
  import opened Bytes
  import opened Parse
  import opened Allocator

  lemma NetworkTwice(ip: seq<byte>, ones: nat)
    ensures Network(Network(ip, ones), ones) == Network(ip, ones)
  {
    var net := Network(ip, ones);
    CidrValues(ip, ones);
    CidrValues(net, ones);
    FloorTwice(Val(ip), HostBits(|ip|, ones));
    ValInjective(Network(net, ones), net);
  }

  /**
    In one family, IPAllocatable is containment without the first and the last
    address of an IPv4 block of prefix /0 to /30; other prefixes lose nothing.
   */
  lemma AllocatableVersusContained(ip: Ip, ones: nat, x: Ip)
    requires ones <= 8 * |ip| && !Mapped(Network(ip, ones))
    requires |Normalize(x)| == |ip|
    ensures var r, y := Cidr(ip, ones), Normalize(x);
            var net := Network(ip, ones);
            IPAllocatable(Ok(x), r) <==>
              && IPInRange(Ok(x), r)
              && !(|ip| == 4 && ones <= 30 && y in {net, Broadcast(net, ones)})
  {
    hide Val, Size, Encode, Compare;
    var y, net := Normalize(x), Network(ip, ones);
    var last := Broadcast(net, ones);
    NetworkTwice(ip, ones);
    CidrMembership(ip, ones, y);
    assert IPInRange(Ok(x), Cidr(ip, ones)) <==> Compare(net, y) <= 0 <= Compare(last, y);
    CompareReversed(net, y);
    CompareReversed(last, y);
    if |ip| == 4 && ones <= 30 {
      SubnetBounds(ip, ones);
      CidrValues(ip, ones);
      var (start, end) := Bounds(Cidr(ip, ones)).value;
      CompareIsNumeric(y, start);
      CompareIsNumeric(y, end);
      CompareIsNumeric(net, y);
      CompareIsNumeric(last, y);
    }
  }

  /** In one family an allocatable address is contained, for every form of range. */
  lemma AllocatableIsContained(r: Range, x: Ip)
    requires Bounds(r).Ok? && |Normalize(x)| == |Bounds(r).value.0|
    requires IPAllocatable(Ok(x), r)
    ensures IPInRange(Ok(x), r)
  {
    if r.Cidr? {
      if Mapped(Network(r.ip, r.ones)) {
        MappedCidrCollapses(r.ip, r.ones);
        CompareReversed(Normalize(x), Bounds(r).value.0);
      } else {
        AllocatableVersusContained(r.ip, r.ones, x);
      }
    }
  }

  /**
    A CIDR offers every address it contains, less the ends of an IPv4 subnet,
    exactly unless it is written on an IPv4-mapped address with host bits left.
   */
  lemma CidrCoversIff(ip: Ip, ones: nat)
    requires ones <= 8 * |ip|
    ensures var r, net := Cidr(ip, ones), Network(ip, ones);
            (forall x: Ip :: IPInRange(Ok(x), r)
                             && !(|ip| == 4 && ones <= 30 && Normalize(x) in {net, Broadcast(net, ones)}) ==>
               IPAllocatable(Ok(x), r))
            <==> !Mapped(net) || ones == 128
  {
    hide Val, Size, Encode, Compare, Bounds, Network, Broadcast;
    var r, net := Cidr(ip, ones), Network(ip, ones);
    if !Mapped(net) {
      forall x: Ip | IPInRange(Ok(x), r)
                     && !(|ip| == 4 && ones <= 30 && Normalize(x) in {net, Broadcast(net, ones)})
        ensures IPAllocatable(Ok(x), r)
      {
        AllocatableVersusContained(ip, ones, x);
      }
    } else {
      MappedCidrCollapses(ip, ones);
      CompareReversed(net[12..], net[12..]);
      if ones == 128 {
        forall x: Ip | IPInRange(Ok(x), r) ensures IPAllocatable(Ok(x), r) {
          FullNetwork(Normalize(x), 32);
          FullNetwork(net[12..], 32);
        }
      } else {
        MappedCidrLoses(ip, ones);
      }
    }
  }

  /** ::ffff:10.0.0.0/120 contains 10.0.0.255 and does not offer it. */
  lemma MappedCidrExample()
    ensures var r: Range := Cidr(MARKER + [10, 0, 0, 0], 120);
            IPInRange(Ok([10, 0, 0, 255]), r) && !IPAllocatable(Ok([10, 0, 0, 255]), r)
  {
    MappedBytes([10, 0, 0, 0], [10, 0, 0, 255]);
  }

  /** A /120 on a mapped network contains, and does not offer, an address that differs from it in the last byte. */
  lemma MappedBytes(low: Ip, x: Ip)
    requires |low| == |x| == 4 && low[..3] == x[..3] && low[3] == 0 < x[3]
    ensures IPInRange(Ok(x), Cidr(MARKER + low, 120)) && !IPAllocatable(Ok(x), Cidr(MARKER + low, 120))
  {
    hide Network, Compare, Bounds;
    var ip: Ip := MARKER + low;
    ByteNetwork(ip, 120);
    ByteNetwork(x, 24);
    ByteNetwork(low, 24);
    assert ip[..15] + [0] == ip && x[..3] + [0] == low && low[..3] + [0] == low;
    MappedCidrCollapses(ip, 120);
    DecidedAt(low, x, 3);
  }

  /** A prefix of all bytes but the last clears that one. */
  lemma ByteNetwork(ip: seq<byte>, ones: nat)
    requires |ip| > 0 && ones == 8 * (|ip| - 1)
    ensures Network(ip, ones) == ip[..|ip| - 1] + [0]
  {
    var n := |ip| - 1;
    FullNetwork(ip[..n], ones);
    MaskOneByte(ip[n], 0);
    Pow2Eight();
    SameFloor(0, ip[n], 8);
    SameFloor(0, 0, 8);
  }

  lemma {:induction false} FullNetwork(ip: seq<byte>, ones: nat)
    requires ones == 8 * |ip|
    ensures Network(ip, ones) == ip
  {
    CidrValues(ip, ones);
    ValInjective(Network(ip, ones), ip);
  }

  /** The last address of the block is contained and not allocatable. */
  lemma MappedCidrLoses(ip: Ip, ones: nat)
    requires ones < 128 && |ip| == 16 && Mapped(Network(ip, ones))
    ensures 96 <= ones
    ensures var last := Broadcast(Network(Network(ip, ones)[12..], ones - 96), ones - 96);
            IPInRange(Ok(last), Cidr(ip, ones)) && !IPAllocatable(Ok(last), Cidr(ip, ones))
  {
    hide Val, Size, Encode, Compare, Network, Broadcast;
    MappedCidrCollapses(ip, ones);
    var net := Network(ip, ones)[12..];
    var m := ones - 96;
    var first := Network(net, m);
    var last: Ip := Broadcast(first, m);
    CidrValues(net, m);
    CompareIsNumeric(first, last);
    CompareReversed(last, last);
    CidrMembership(net, m, last);
    assert Network(last, m) == first;
    CompareIsNumeric(net, first);
    CompareIsNumeric(net, last);
    CompareReversed(net, last);
    assert Pow2(32 - m) >= 2;
    SameFloor(Val(net), Val(net), 32 - m);
    MappedNetFloor(ip, ones);
  }

  /** What a mapped address keeps behind the marker is its own IPv4 network. */
  lemma MappedNetFloor(ip: Ip, ones: nat)
    requires |ip| == 16 && Mapped(Network(ip, ones)) && 96 <= ones <= 128
    ensures Network(Network(ip, ones)[12..], ones - 96) == Network(ip, ones)[12..]
  {
    var net := Network(ip, ones);
    var low := net[12..];
    NetworkTwice(ip, ones);
    forall i | 0 <= i < 4 ensures Network(low, ones - 96)[i] == low[i] {
      NetworkAt(low, ones - 96, i);
      NetworkAt(net, ones, 12 + i);
    }
  }

  /**
    A range of the other family takes `x` for one of its own by the first four
    bytes: those of an IPv6 address must lie in an IPv4 range and before its
    end, those of the bounds of an IPv6 range must enclose an IPv4 address.
   */
  predicate LooksLike(x: Ip, r: Range) {
    && Bounds(r).Ok?
    && var (start, end) := Bounds(r).value;
       if |x| == 16 then |start| == |end| == 4 && Val(start) <= Val(x[..4]) < Val(end)
       else |start| == |end| == 16 && Val(start[..4]) < Val(x) <= Val(end[..4])
  }

  /** Across families the lexicographic test is not containment but likeness. */
  lemma CrossFamily(r: Range, x: Ip)
    requires Bounds(r).Ok? && |Bounds(r).value.0| == |Bounds(r).value.1| != |Normalize(x)|
    ensures IPAllocatable(Ok(x), r) <==> LooksLike(Normalize(x), r)
    ensures IPAllocatable(Ok(x), r) && r.Cidr? ==> !IPInRange(Ok(x), r)
  {
    hide Val, Size, Encode, Compare;
    var y := Normalize(x);
    var (start, end) := Bounds(r).value;
    if |y| == 16 {
      AgainstShorter(y, start);
      AgainstShorter(y, end);
    } else {
      AgainstShorter(start, y);
      AgainstShorter(end, y);
      CompareReversed(y, start);
      CompareReversed(y, end);
    }
  }

  lemma AgainstShorter(x: seq<byte>, b: seq<byte>)
    requires |x| > |b|
    ensures Compare(x, b) >= 0 <==> Val(x[..|b|]) >= Val(b)
    ensures Compare(x, b) <= 0 <==> Val(x[..|b|]) < Val(b)
  {
    LongerCompare(x, b);
    CompareIsNumeric(x[..|b|], b);
    CompareReversed(x[..|b|], b);
  }

  lemma {:induction false} LongerCompare(x: seq<byte>, b: seq<byte>)
    requires |x| > |b|
    ensures Compare(x, b) == if x[..|b|] == b then 1 else Compare(x[..|b|], b)
  {
    if |b| > 0 && x[0] == b[0] {
      LongerCompare(x[1..], b[1..]);
      assert x[1..][..|b| - 1] == x[..|b|][1..];
      assert b == [b[0]] + b[1..] && x[..|b|] == [x[0]] + x[..|b|][1..];
    }
  }

  /** The first byte that differs decides. */
  lemma {:induction false} DecidedAt(a: seq<byte>, b: seq<byte>, i: nat)
    requires i < |a| && i < |b| && a[..i] == b[..i] && a[i] < b[i]
    ensures Compare(a, b) == -1 && Compare(b, a) == 1
    decreases i
  {
    if i > 0 {
      assert a[0] == a[..i][0] == b[..i][0] == b[0];
      assert a[1..][..i - 1] == a[..i][1..] == b[..i][1..] == b[1..][..i - 1];
      DecidedAt(a[1..], b[1..], i - 1);
    }
  }

  /** c0a8:164:: passes as an address of 192.168.1.1-192.168.1.254. */
  lemma CrossFamilyExample()
    ensures IPAllocatable(Ok([192, 168, 1, 100, 0, 0, 0, 0, 0, 0, 0, 0, 0, 0, 0, 0]),
                          Span([192, 168, 1, 1], [192, 168, 1, 254]))
  {
    hide Compare;
    var x: Ip := [192, 168, 1, 100, 0, 0, 0, 0, 0, 0, 0, 0, 0, 0, 0, 0];
    DecidedAt([192, 168, 1, 1], x, 3);
    DecidedAt(x, [192, 168, 1, 254], 3);
  }

  /** 253.0.0.5 passes as an address of fd00::-fdff::. */
  lemma CrossFamilyMirrorExample()
    ensures IPAllocatable(Ok([253, 0, 0, 5]),
                          Span([253, 0, 0, 0, 0, 0, 0, 0, 0, 0, 0, 0, 0, 0, 0, 0],
                               [253, 255, 0, 0, 0, 0, 0, 0, 0, 0, 0, 0, 0, 0, 0, 0]))
  {
    hide Compare;
    var x: Ip := [253, 0, 0, 5];
    DecidedAt([253, 0, 0, 0, 0, 0, 0, 0, 0, 0, 0, 0, 0, 0, 0, 0], x, 3);
    DecidedAt(x, [253, 255, 0, 0, 0, 0, 0, 0, 0, 0, 0, 0, 0, 0, 0, 0], 1);
  }

  // Ranges whose scan leaves them: past the all-ones address, or into the mapped addresses.

  /** The scan runs past the all-ones address into addresses below the range. */
  predicate Overruns(start: Ip, end: Ip, maxScan: nat) {
    Wraps(start, end, maxScan) && 0 < Val(start) < Val(end)
  }

  /** The scan comes to ::ffff:0:0, which it knows as 0.0.0.0. */
  predicate MeetsMapped(start: Ip, end: Ip, maxScan: nat) {
    |start| == 16 && Val(start) < MAPPED <= Val(end) && MAPPED - Val(start) < maxScan
  }

  /**
    AllocateIP is confined to its range exactly when the scan neither runs past
    the all-ones address nor comes to the mapped addresses.
   */
  lemma ConfinedIff(r: Range, maxScan: nat)
    requires Bounds(r).Ok? && |Bounds(r).value.0| == |Bounds(r).value.1|
    ensures var (start, end) := Bounds(r).value;
            (forall used, ip :: Pick(used, r, maxScan) == Ok(ip) ==> IPAllocatable(Ok(ip), r))
            <==> !Overruns(start, end, maxScan) && !MeetsMapped(start, end, maxScan)
  {
    hide Val, Size, Encode, Compare, Visited, IPAllocatable, Overruns, MeetsMapped;
    var (start, end) := Bounds(r).value;
    if Overruns(start, end, maxScan) {
      OverrunEscapes(r, maxScan);
    } else if MeetsMapped(start, end, maxScan) {
      MappedEscapes(r, maxScan);
    } else {
      forall used, ip | Pick(used, r, maxScan) == Ok(ip) ensures IPAllocatable(Ok(ip), r) {
        HandedIsAllocatable(used, r, maxScan);
      }
    }
  }

  lemma HandedIsAllocatable(used: set<Ip>, r: Range, maxScan: nat)
    requires Bounds(r).Ok? && |Bounds(r).value.0| == |Bounds(r).value.1| && Pick(used, r, maxScan).Ok?
    requires !Overruns(Bounds(r).value.0, Bounds(r).value.1, maxScan)
    requires !MeetsMapped(Bounds(r).value.0, Bounds(r).value.1, maxScan)
    ensures IPAllocatable(Ok(Pick(used, r, maxScan).value), r)
    ensures |Pick(used, r, maxScan).value| == |Bounds(r).value.0|
  {
    hide Val, Size, Encode, Compare, Visited;
    var (start, end) := Bounds(r).value;
    var ip := Pick(used, r, maxScan).value;
    StartNormal(r);
    if start == end {
      CompareReversed(start, start);
    } else {
      VisitedIff(start, end, maxScan, ip);
      var y := Behind(ip, |start|);
      if Val(start) == Val(end) { ValInjective(start, end); }
      assert InWindow(y, start, end, maxScan);
      if |start| == 16 {
        MappedIsBlock(y);
        MappedIsBlock(start);
      }
      CompareIsNumeric(y, start);
      CompareIsNumeric(y, end);
    }
  }

  /** An unpinned allocation from an IPv4 range yields an IPv4 address. */
  lemma PickFamily(used: set<Ip>, r: Range, maxScan: nat)
    requires Pick(used, r, maxScan).Ok? && |Bounds(r).value.0| == 4
    ensures |Pick(used, r, maxScan).value| == 4
  {
    var (start, end) := Bounds(r).value;
    if start != end {
      var y := VisitedFrom(start, end, maxScan, Pick(used, r, maxScan).value);
    }
  }

  lemma OverrunEscapes(r: Range, maxScan: nat)
    requires Bounds(r).Ok? && |Bounds(r).value.0| == |Bounds(r).value.1|
    requires Overruns(Bounds(r).value.0, Bounds(r).value.1, maxScan)
    ensures exists used, ip :: Pick(used, r, maxScan) == Ok(ip) && !IPAllocatable(Ok(ip), r)
  {
    hide Val, Size, Encode, Compare, Visited;
    var (start, end) := Bounds(r).value;
    var zero: Ip := Fill(0, |start|);
    Extremes(|start|);
    VisitedIff(start, end, maxScan, zero);
    Reachable(r, maxScan, zero);
    var used :| Pick(used, r, maxScan) == Ok(zero);
    CompareIsNumeric(zero, start);
  }

  lemma MappedEscapes(r: Range, maxScan: nat)
    requires Bounds(r).Ok? && |Bounds(r).value.0| == |Bounds(r).value.1|
    requires MeetsMapped(Bounds(r).value.0, Bounds(r).value.1, maxScan)
    ensures exists used :: Pick(used, r, maxScan) == Ok([0, 0, 0, 0])
    ensures !IPAllocatable(Ok([0, 0, 0, 0]), r)
  {
    hide Val, Size, Encode, Compare, Visited;
    var (start, end) := Bounds(r).value;
    var key: Ip := [0, 0, 0, 0];
    MarkerIs();
    Extremes(4);
    assert key == Fill(0, 4);
    ValConcat(MARKER, key);
    VisitedIff(start, end, maxScan, key);
    Reachable(r, maxScan, key);
    CrossFamily(r, key);
  }

  /** 255.255.255.254-255.255.255.255 hands out 0.0.0.0 once both of its addresses are taken. */
  lemma OverrunExample()
    ensures Pick({[255, 255, 255, 254], [255, 255, 255, 255]},
                 Span([255, 255, 255, 254], [255, 255, 255, 255]), DEFAULT_MAX_SCAN) == Ok([0, 0, 0, 0])
  {
    var a: Ip := [255, 255, 255, 254];
    var b: Ip := [255, 255, 255, 255];
    assert Fill(255, 4) == b && Fill(0, 4) == [0, 0, 0, 0];
    Extremes(4);
    assert a[..3] == b[..3];
    assert Val(a) == Val(a[..3]) * 256 + 254 && Val(b) == Val(b[..3]) * 256 + 255;
    TopPair(a, b, DEFAULT_MAX_SCAN);
  }

  lemma TopPair(a: Ip, b: Ip, maxScan: nat)
    requires |a| == |b| == 4 && Val(a) + 1 == Val(b) == Size(|b|) - 1 && maxScan > 2
    ensures FirstUnused(Visited(a, b, maxScan), {a, b}) == Ok(Fill(0, 4))
  {
    hide Val, Encode, Compare;
    var zero: Ip := Fill(0, 4);
    Extremes(4);
    CompareIsNumeric(a, b);
    CompareIsNumeric(b, b);
    CompareIsNumeric(zero, b);
    ValInjective(Succ(a), b);
    ValInjective(Succ(b), zero);
    VisitedStep(a, b, maxScan, {a, b});
    VisitedStep(b, b, maxScan - 1, {a, b});
    VisitedStep(zero, b, maxScan - 2, {a, b});
  }

  /** ::fffe:ffff:ffff-::1:0:0:0 hands out 0.0.0.0 once its first address is taken. */
  lemma MappedExample()
    ensures var a: Ip := [0, 0, 0, 0, 0, 0, 0, 0, 0, 0, 255, 254, 255, 255, 255, 255];
            var b: Ip := [0, 0, 0, 0, 0, 0, 0, 0, 0, 1, 0, 0, 0, 0, 0, 0];
            && Pick({a}, Span(a, b), DEFAULT_MAX_SCAN) == Ok([0, 0, 0, 0])
            && !IPAllocatable(Ok([0, 0, 0, 0]), Span(a, b))
  {
    var a: Ip := [0, 0, 0, 0, 0, 0, 0, 0, 0, 0, 255, 254, 255, 255, 255, 255];
    var b: Ip := [0, 0, 0, 0, 0, 0, 0, 0, 0, 1, 0, 0, 0, 0, 0, 0];
    MarkerIs();
    Extremes(4);
    Extremes(10);
    Extremes(6);
    var zero: Ip := Fill(0, 4);
    assert zero == [0, 0, 0, 0];
    ValSnoc(Fill(0, 10), 255);
    ValSnoc(Fill(0, 10) + [255], 254);
    ValConcat(Fill(0, 10) + [255] + [254], Fill(255, 4));
    assert a == Fill(0, 10) + [255] + [254] + Fill(255, 4);
    assert Val(a) == MAPPED - 1;
    Extremes(9);
    ValSnoc(Fill(0, 9), 1);
    ValConcat(Fill(0, 9) + [1], Fill(0, 6));
    assert b == Fill(0, 9) + [1] + Fill(0, 6);
    assert Size(6) == Size(4) * 65536;
    assert Val(b) == MAPPED + Size(4);
    MappedNext(a, b);
  }

  lemma FirstMapped(y: Ip)
    requires |y| == 16 && Val(y) == MAPPED
    ensures Normalize(y) == [0, 0, 0, 0]
  {
    hide Val, Size, Encode;
    var key: Ip := [0, 0, 0, 0];
    MarkerIs();
    Extremes(4);
    assert key == Fill(0, 4);
    ValConcat(MARKER, key);
    ValInjective(MARKER + key, y);
  }

  lemma MappedNext(a: Ip, b: Ip)
    requires |a| == |b| == 16 && Val(a) == MAPPED - 1 && Val(b) > MAPPED && !Mapped(b)
    ensures Pick({a}, Span(a, b), DEFAULT_MAX_SCAN) == Ok([0, 0, 0, 0])
    ensures !IPAllocatable(Ok([0, 0, 0, 0]), Span(a, b))
  {
    hide Val, Size, Encode, Compare, Visited, Succ, IPAllocatable, Mapped;
    MappedIsBlock(a);
    ValBound(b);
    CompareIsNumeric(a, b);
    FirstMapped(Succ(a));
    CompareIsNumeric(Succ(a), b);
    VisitedStep(a, b, DEFAULT_MAX_SCAN, {a});
    VisitedStep(Succ(a), b, DEFAULT_MAX_SCAN - 1, {a});
    MappedEscapes(Span(a, b), DEFAULT_MAX_SCAN);
  }

  lemma {:induction false} VisitedFrom(start: Ip, end: Ip, budget: nat, x: Ip) returns (y: Ip)
    requires x in Visited(start, end, budget)
    ensures |y| == |start| && Normalize(y) == x
    decreases budget
  {
    y := start;
    if x != Normalize(start) {
      assert Visited(start, end, budget) == [Normalize(start)] + Visited(Succ(start), end, budget - 1);
      y := VisitedFrom(Succ(start), end, budget - 1, x);
    }
  }
}
