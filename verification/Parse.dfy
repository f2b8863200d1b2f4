/** internal/network/parse.go: address arithmetic and the bounds of a range. */
module Parse {
  import opened Bytes

  datatype Result<+T> = Ok(value: T) | Err

  /** A net.IP: four or sixteen bytes. */
  type Ip = s: seq<byte> | |s| == 4 || |s| == 16 witness [0, 0, 0, 0]

  /** IPv4-mapped IPv6 addresses, section 2.5.5.2 of RFC 4291. */
  predicate Mapped(ip: Ip) {
    |ip| == 16 && (forall i :: 0 <= i < 10 ==> ip[i] == 0) && ip[10] == 255 && ip[11] == 255
  }

  function Normalize(ip: Ip): (n: Ip) {
    if Mapped(ip) then ip[12..] else ip
  }

  function CompareIPs(a: Ip, b: Ip): int {
    Compare(Normalize(a), Normalize(b))
  }

  // Successor and predecessor.

  /** The next address, numerically; the all-ones address wraps to zero. */
  function Succ(ip: seq<byte>): (next: seq<byte>)
    ensures |next| == |ip|
    ensures Val(next) == if Val(ip) + 1 == Size(|ip|) then 0 else Val(ip) + 1
  {
    ValBound(ip);
    Encode(if Val(ip) + 1 == Size(|ip|) then 0 else Val(ip) + 1, |ip|)
  }

  /** The previous address, numerically; zero wraps to the all-ones address. */
  function Pred(ip: seq<byte>): (prev: seq<byte>)
    ensures |prev| == |ip|
    ensures Val(prev) == if Val(ip) == 0 then Size(|ip|) - 1 else Val(ip) - 1
  {
    ValBound(ip);
    Encode(if Val(ip) == 0 then Size(|ip|) - 1 else Val(ip) - 1, |ip|)
  }

  function Fill(b: byte, n: nat): seq<byte> { seq(n, _ => b) }

  /** Adding one to the last byte of `s` and carrying over the `k` bytes behind it. */
  lemma {:induction false} Carry(s: seq<byte>, k: nat)
    requires |s| > 0 && s[|s| - 1] < 255
    ensures Val(s[|s| - 1 := s[|s| - 1] + 1] + Fill(0, k)) == Val(s + Fill(255, k)) + 1
  {
    var t := s[|s| - 1 := s[|s| - 1] + 1];
    if k == 0 {
      assert s + Fill(255, 0) == s && t + Fill(0, 0) == t;
      assert t[..|s| - 1] == s[..|s| - 1];
    } else {
      Carry(s, k - 1);
      assert (s + Fill(255, k))[..|s| + k - 1] == s + Fill(255, k - 1);
      assert (t + Fill(0, k))[..|s| + k - 1] == t + Fill(0, k - 1);
    }
  }

  lemma {:induction false} Extremes(n: nat)
    ensures Val(Fill(0, n)) == 0 && Val(Fill(255, n)) == Size(n) - 1
  {
    if n > 0 {
      Extremes(n - 1);
      assert Fill(0, n)[..n - 1] == Fill(0, n - 1);
      assert Fill(255, n)[..n - 1] == Fill(255, n - 1);
    }
  }

  /** `next` is `ip` with one added at byte `i` and a carry over the all-ones bytes behind it. */
  predicate Carried(ip: seq<byte>, next: seq<byte>, i: int)
    requires |next| == |ip| && -1 <= i < |ip|
  {
    && (forall j :: 0 <= j < i ==> next[j] == ip[j])
    && (forall j :: i < j < |ip| ==> ip[j] == 255 && next[j] == 0)
    && (i >= 0 ==> ip[i] < 255 && next[i] == ip[i] + 1)
  }

  lemma SuccByCarry(ip: seq<byte>, next: seq<byte>, i: int)
    requires |next| == |ip| && -1 <= i < |ip| && Carried(ip, next, i)
    ensures next == Succ(ip) && ip == Pred(next)
  {
    var n := |ip|;
    ValBound(ip);
    ValBound(next);
    if i >= 0 {
      var s := ip[..i + 1];
      Carry(s, n - 1 - i);
      assert ip == s + Fill(255, n - 1 - i);
      assert next == s[i := s[i] + 1] + Fill(0, n - 1 - i);
    } else {
      Extremes(n);
      assert ip == Fill(255, n) && next == Fill(0, n);
    }
    ValInjective(next, Succ(ip));
    ValInjective(ip, Pred(next));
  }

  method IncrementIP(ip: Ip) returns (next: Ip)
    ensures next == Succ(ip)
  {
    var n := |ip|;
    var buffer := new byte[n](i requires 0 <= i < n => ip[i]);
    var i := n - 1;
    while i >= 0
      invariant -1 <= i < n
      invariant forall j :: 0 <= j <= i ==> buffer[j] == ip[j]
      invariant forall j :: i < j < n ==> ip[j] == 255 && buffer[j] == 0
    {
      buffer[i] := if buffer[i] == 255 then 0 else buffer[i] + 1;
      if buffer[i] != 0 { break; }
      i := i - 1;
    }
    next := buffer[..];
    SuccByCarry(ip, next, i);
  }

  method DecrementIP(ip: Ip) returns (prev: Ip)
    ensures prev == Pred(ip)
  {
    var n := |ip|;
    var buffer := new byte[n](i requires 0 <= i < n => ip[i]);
    var i := n - 1;
    while i >= 0
      invariant -1 <= i < n
      invariant forall j :: 0 <= j <= i ==> buffer[j] == ip[j]
      invariant forall j :: i < j < n ==> ip[j] == 0 && buffer[j] == 255
    {
      buffer[i] := if buffer[i] == 0 then 255 else buffer[i] - 1;
      if buffer[i] != 255 { break; }
      i := i - 1;
    }
    prev := buffer[..];
    SuccByCarry(prev, ip, i);
  }

  // Prefix masks, section 3.1 of RFC 4632.

  /** The mask byte when `ones` prefix bits remain at this byte (net.CIDRMask). */
  function MaskByte(ones: int): byte {
    Pow2Eight();
    if ones >= 8 then 255 else if ones <= 0 then 0 else
      LowBits(0, 8 - ones, 8);
      256 - Pow2(8 - ones)
  }

  /** The address with everything outside its prefix cleared, byte by byte. */
  function Network(ip: seq<byte>, ones: nat): (net: seq<byte>)
    ensures |net| == |ip|
  {
    if |ip| == 0 then [] else
      var n := |ip| - 1;
      Network(ip[..n], ones) + [And(ip[n], MaskByte(ones - 8 * n))]
  }

  /** The address with everything outside its prefix set, byte by byte. */
  function Broadcast(net: seq<byte>, ones: nat): (last: seq<byte>)
    ensures |last| == |net|
  {
    if |net| == 0 then [] else
      var n := |net| - 1;
      Broadcast(net[..n], ones) + [Or(net[n], Not(MaskByte(ones - 8 * n)))]
  }

  /** The number of host bits behind a prefix. */
  function HostBits(n: nat, ones: nat): nat {
    if ones >= 8 * n then 0 else 8 * n - ones
  }

  function ByteHostBits(ones: int): nat {
    if ones >= 8 then 0 else if ones <= 0 then 8 else 8 - ones
  }

  /** Masking one byte clears, and filling it sets, the bits behind the prefix. */
  lemma MaskOneByte(b: byte, ones: int)
    ensures And(b, MaskByte(ones)) == Floor(b, ByteHostBits(ones))
    ensures Or(And(b, MaskByte(ones)), Not(MaskByte(ones)))
            == Floor(b, ByteHostBits(ones)) + Pow2(ByteHostBits(ones)) - 1
  {
    var j, w := ByteHostBits(ones), 8;
    Pow2Eight();
    assert MaskByte(ones) == Pow2(w) - Pow2(j);
    LowBits(b, j, w);
    FloorTwice(b, j);
    SameFloor(b, b, j);
    LowBits(Floor(b, j), j, w);
  }

  lemma FloorInBlock(v: nat, b: byte, h: nat)
    ensures Floor(v * 256 + b, h + 8) == Floor(v, h) * 256
  {
    assert Floor(v * 256 + b, h + 8) == 4 * Floor(v * 64 + b / 4, h + 6);
    assert Floor(v * 64 + b / 4, h + 6) == 4 * Floor(v * 16 + b / 16, h + 4);
    assert Floor(v * 16 + b / 16, h + 4) == 4 * Floor(v * 4 + b / 64, h + 2);
    assert Floor(v * 4 + b / 64, h + 2) == 4 * Floor(v, h);
  }

  /** Extending a prefix block by one byte, behind the prefix or within it. */
  lemma BlockStep(v: nat, b: byte, n: nat, ones: nat, w: nat)
    requires w == v * 256 + b
    ensures var h, h', k := HostBits(n, ones), HostBits(n + 1, ones), ByteHostBits(ones - 8 * n);
            && Floor(v, h) * 256 + Floor(b, k) == Floor(w, h')
            && (Pow2(h) - 1) * 256 + Pow2(k) == Pow2(h')
  {
    Pow2Eight();
    if ones <= 8 * n {
      var h := HostBits(n, ones);
      FloorInBlock(v, b, h);
      FloorInBlock(0, b, 0);
      Pow2Sum(h, 8);
    } else {
      FloorInBlock(v, 0, 0);
      FloorFewer(v * 256, 8, HostBits(n + 1, ones));
      FloorAdd(v * 256, b, HostBits(n + 1, ones));
    }
  }

  /** The byte-wise bounds of a prefix are the numeric bounds of its block. */
  lemma {:induction false} CidrValues(ip: seq<byte>, ones: nat)
    ensures Val(Network(ip, ones)) == Floor(Val(ip), HostBits(|ip|, ones))
    ensures Val(Broadcast(Network(ip, ones), ones))
            == Floor(Val(ip), HostBits(|ip|, ones)) + Pow2(HostBits(|ip|, ones)) - 1
    decreases |ip|
  {
    if |ip| > 0 {
      var n := |ip| - 1;
      CidrValues(ip[..n], ones);
      var net, c := Network(ip[..n], ones), And(ip[n], MaskByte(ones - 8 * n));
      MaskOneByte(ip[n], ones - 8 * n);
      BlockStep(Val(ip[..n]), ip[n], n, ones, Val(ip));
      ValSnoc(net, c);
      assert Network(ip, ones) == net + [c];
      ValSnoc(Broadcast(net, ones), Or(c, Not(MaskByte(ones - 8 * n))));
      assert Network(ip, ones)[..n] == net;
    }
  }

  /** An address lies between the bounds exactly when it has the network's prefix. */
  lemma CidrMembership(ip: seq<byte>, ones: nat, x: seq<byte>)
    requires |x| == |ip|
    ensures Compare(Network(ip, ones), x) <= 0 <= Compare(Broadcast(Network(ip, ones), ones), x)
            <==> Network(x, ones) == Network(ip, ones)
  {
    var net, last := Network(ip, ones), Broadcast(Network(ip, ones), ones);
    CidrValues(ip, ones);
    CidrValues(x, ones);
    CompareIsNumeric(net, x);
    CompareIsNumeric(last, x);
    SameFloor(Val(ip), Val(x), HostBits(|ip|, ones));
    if Val(Network(x, ones)) == Val(net) {
      ValInjective(Network(x, ones), net);
    }
  }

  // Ranges.

  /**
    The text of a range after net.ParseIP or net.ParseCIDR: the address of a
    CIDR keeps the length of the family it was written in.
   */
  datatype Range = Malformed | Single(ip: Ip) | Span(first: Ip, last: Ip) | Cidr(ip: Ip, ones: nat)

  /** The first and last allocatable address of a range. */
  function Bounds(r: Range): (b: Result<(Ip, Ip)>) {
    match r
    case Malformed => Err
    case Single(ip) => Ok((Normalize(ip), Normalize(ip)))
    case Span(first, last) => Ok((Normalize(first), Normalize(last)))
    case Cidr(ip, ones) =>
      if ones > 8 * |ip| then Err else
        var start := Normalize(Network(ip, ones));
        var end := Broadcast(start, ones);
        if |ip| == 4 && 32 - ones > 1 then Ok((Succ(start), Pred(end))) else Ok((start, end))
  }

  method ParseIPRange(r: Range) returns (b: Result<(Ip, Ip)>)
    ensures b == Bounds(r)
  {
    hide Val, Size, Encode, Or, MaskByte, Mapped, Network;
    match r {
      case Malformed => return Err;
      case Single(ip) => return Ok((Normalize(ip), Normalize(ip)));
      case Span(first, last) => return Ok((Normalize(first), Normalize(last)));
      case Cidr(ip, ones) =>
        if ones > 8 * |ip| { return Err; }
        var start: Ip := Normalize(Network(ip, ones));
        var last := new byte[|start|];
        for i := 0 to |start|
          invariant last[..i] == Broadcast(start[..i], ones)
        {
          last[i] := Or(start[i], Not(MaskByte(ones - 8 * i)));
          assert start[..i + 1][..i] == start[..i];
        }
        assert start[..|start|] == start && last[..] == last[..|start|];
        var end: Ip := last[..];
        if |ip| == 4 && 32 - ones > 1 {
          start := IncrementIP(start);
          end := DecrementIP(end);
        }
        return Ok((start, end));
    }
  }

  /** Ranges start at a normalized address. */
  lemma StartNormal(r: Range)
    requires Bounds(r).Ok?
    ensures !Mapped(Bounds(r).value.0)
  {
  }

  /** The numeric base of the block that a prefix of `ip` names. */
  function Base(ip: Ip, ones: nat): nat { Floor(Val(ip), HostBits(|ip|, ones)) }

  /**
    IPv4 prefixes up to /30 lose exactly the first and the last address of the
    block, and keep at least two below the all-ones address.
   */
  lemma SubnetBounds(ip: Ip, ones: nat)
    requires |ip| == 4 && ones <= 30
    ensures Bounds(Cidr(ip, ones)).Ok?
    ensures var (start, end) := Bounds(Cidr(ip, ones)).value;
            && |start| == |end| == 4
            && Val(start) == Base(ip, ones) + 1
            && Val(end) == Base(ip, ones) + Pow2(32 - ones) - 2
            && Val(start) < Val(end) < Size(4) - 1
  {
    var net := Network(ip, ones);
    CidrValues(ip, ones);
    InnerBounds(net, Broadcast(net, ones), 32 - ones);
  }

  /** IPv4 /31 and /32 (section 2 of RFC 3021) and IPv6 prefixes keep the whole block. */
  lemma BlockBounds(ip: Ip, ones: nat)
    requires ones <= 8 * |ip| && !(|ip| == 4 && ones <= 30) && !Mapped(Network(ip, ones))
    ensures Bounds(Cidr(ip, ones)).Ok?
    ensures var (start, end) := Bounds(Cidr(ip, ones)).value;
            && |start| == |end| == |ip|
            && Val(start) == Base(ip, ones)
            && Val(end) == Base(ip, ones) + Pow2(8 * |ip| - ones) - 1
  {
    CidrValues(ip, ones);
  }

  /**
    A prefix written on an IPv4-mapped address that keeps the mapped marker
    yields the network address alone: the mask bytes are read from the front of
    the sixteen-byte mask.
   */
  lemma MappedCidrCollapses(ip: Ip, ones: nat)
    requires ones <= 8 * |ip| && Mapped(Network(ip, ones))
    ensures 96 <= ones <= 128
    ensures Bounds(Cidr(ip, ones)) == Ok((Network(ip, ones)[12..], Network(ip, ones)[12..]))
  {
    MappedPrefix(ip, ones);
    FullBroadcast(Network(ip, ones)[12..], ones);
  }

  lemma {:induction false} FullBroadcast(net: seq<byte>, ones: nat)
    requires 8 * |net| <= ones
    ensures Broadcast(net, ones) == net
    decreases |net|
  {
    if |net| > 0 {
      var n := |net| - 1;
      FullBroadcast(net[..n], ones);
      FullMask(net[n]);
      assert net == net[..n] + [net[n]];
    }
  }

  lemma FullMask(b: byte)
    ensures Or(b, Not(255)) == b
  {
    var w := 8;
    Pow2Eight();
    LowBits(b, 0, w);
  }

  lemma InnerBounds(first: Ip, last: Ip, h: nat)
    requires |first| == |last| && h >= 2 && Val(last) == Val(first) + Pow2(h) - 1
    ensures Val(Succ(first)) == Val(first) + 1 < Val(Pred(last)) == Val(last) - 1 < Size(|first|) - 1
  {
    var n := |first|;
    ValBound(last);
    assert Pow2(h) == 4 * Pow2(h - 2);
  }

  /** Only a prefix of 96 bits or more can keep the marker of a mapped address. */
  lemma MappedPrefix(ip: Ip, ones: nat)
    requires Mapped(Network(ip, ones))
    ensures ones >= 96
  {
    NetworkAt(ip, ones, 11);
    MaskOneByte(ip[11], ones - 88);
  }

  lemma {:induction false} NetworkAt(ip: seq<byte>, ones: nat, i: nat)
    requires i < |ip|
    ensures Network(ip, ones)[i] == And(ip[i], MaskByte(ones - 8 * i))
    decreases |ip|
  {
    if i < |ip| - 1 {
      NetworkAt(ip[..|ip| - 1], ones, i);
    }
  }
}
