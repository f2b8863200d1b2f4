/** internal/network/ip_allocator.go: the address pool. */
module Allocator {
  import opened Bytes
  import opened Parse

  /** The default bound on the scan of AllocateIP. */
  const DEFAULT_MAX_SCAN: nat := 65536

  /**
    The keys the scan examines, in order: addresses from `ip` on, while they
    are at most `end` and the budget lasts. The increment wraps.
   */
  function Visited(ip: Ip, end: Ip, budget: nat): (keys: seq<Ip>)
    decreases budget
  {
    if budget == 0 || Compare(ip, end) > 0 then []
    else [Normalize(ip)] + Visited(Succ(ip), end, budget - 1)
  }

  function FirstUnused(keys: seq<Ip>, used: set<Ip>): (r: Result<Ip>)
    ensures r.Ok? ==> r.value in keys && r.value !in used
    ensures r.Err? <==> forall k :: k in keys ==> k in used
  {
    if keys == [] then Err
    else if keys[0] !in used then Ok(keys[0])
    else
      assert forall k :: k in keys ==> k == keys[0] || k in keys[1..];
      FirstUnused(keys[1..], used)
  }

  lemma VisitedStep(ip: Ip, end: Ip, budget: nat, used: set<Ip>)
    requires budget > 0 && Compare(ip, end) <= 0
    ensures FirstUnused(Visited(ip, end, budget), used)
            == if Normalize(ip) in used then FirstUnused(Visited(Succ(ip), end, budget - 1), used)
               else Ok(Normalize(ip))
  {
    assert Visited(ip, end, budget)[1..] == Visited(Succ(ip), end, budget - 1);
  }

  /** A range that names one address only; it is handed out again and again. */
  predicate Degenerate(r: Range) {
    Bounds(r).Ok? && Bounds(r).value.0 == Bounds(r).value.1
  }

  function Pick(used: set<Ip>, r: Range, maxScan: nat): (ip: Result<Ip>)
    ensures ip.Ok? && !Degenerate(r) ==> ip.value !in used
    ensures ip.Ok? && Degenerate(r) ==> ip.value == Bounds(r).value.0
  {
    match Bounds(r)
    case Err => Err
    case Ok((start, end)) =>
      if start == end then Ok(start) else FirstUnused(Visited(start, end, maxScan), used)
  }

  /** `target` is the outcome of net.ParseIP on the requested text. */
  predicate IPAllocatable(target: Result<Ip>, r: Range) {
    && target.Ok? && Bounds(r).Ok?
    && Compare(Normalize(target.value), Bounds(r).value.0) >= 0
    && Compare(Normalize(target.value), Bounds(r).value.1) <= 0
  }

  /** net.IPNet.Contains: compare families, then masked bytes. */
  predicate NetContains(ip: Ip, ones: nat, x: Ip)
    requires ones <= 8 * |ip|
  {
    var net := Normalize(Network(ip, ones));
    var y := Normalize(x);
    var m := if |net| == |ip| || ones < 96 then ones else ones - 96;
    |y| == |net| && Network(y, m) == Network(net, m)
  }

  predicate IPInRange(target: Result<Ip>, r: Range) {
    target.Ok? &&
    if r.Cidr? then r.ones <= 8 * |r.ip| && NetContains(r.ip, r.ones, target.value)
    else IPAllocatable(target, r)
  }

  function PickSpecific(used: set<Ip>, r: Range, requested: Result<Ip>): (ip: Result<Ip>)
    ensures ip.Ok? ==> requested.Ok? && ip.value == Normalize(requested.value) && ip.value !in used
  {
    if !IPAllocatable(requested, r) || Normalize(requested.value) in used then Err
    else Ok(Normalize(requested.value))
  }

  /** The scan of AllocateIP: it stops for every pair of bounds. */
  method Scan(start: Ip, end: Ip, used: set<Ip>, maxScan: nat) returns (ip: Result<Ip>)
    ensures ip == FirstUnused(Visited(start, end, maxScan), used)
  {
    hide Val, Size, Encode, Compare;
    var scanned := 0;
    var cur: Ip := start;
    while Compare(cur, end) <= 0
      invariant scanned <= maxScan
      invariant FirstUnused(Visited(start, end, maxScan), used)
                == FirstUnused(Visited(cur, end, maxScan - scanned), used)
      decreases maxScan - scanned
    {
      if scanned >= maxScan { return Err; }
      VisitedStep(cur, end, maxScan - scanned, used);
      scanned := scanned + 1;
      if Normalize(cur) !in used { return Ok(Normalize(cur)); }
      cur := IncrementIP(cur);
    }
    return Err;
  }

  class IPAllocator {
    var used: set<Ip>
    const maxScan: nat

    constructor ()
      ensures used == {} && maxScan == DEFAULT_MAX_SCAN
    {
      used := {};
      maxScan := DEFAULT_MAX_SCAN;
    }

    method AllocateIP(r: Range) returns (ip: Result<Ip>)
      modifies this
      ensures ip == Pick(old(used), r, maxScan)
      ensures used == if ip.Ok? then old(used) + {ip.value} else old(used)
    {
      var bounds := ParseIPRange(r);
      if bounds.Err? { return Err; }
      var (start, end) := bounds.value;
      if start == end {
        used := used + {start};
        return Ok(start);
      }
      ip := Scan(start, end, used, maxScan);
      if ip.Ok? { used := used + {ip.value}; }
    }

    method AllocateSpecificIP(r: Range, requested: Result<Ip>) returns (ip: Result<Ip>)
      modifies this
      ensures ip == PickSpecific(old(used), r, requested)
      ensures used == if ip.Ok? then old(used) + {ip.value} else old(used)
    {
      if requested.Err? { return Err; }
      if !IPAllocatable(requested, r) { return Err; }
      var key := Normalize(requested.value);
      if key in used { return Err; }
      used := used + {key};
      return Ok(key);
    }

    method MarkUsed(ip: Ip)
      modifies this
      ensures used == old(used) + {ip}
    {
      used := used + {ip};
    }

    method ReleaseIP(ip: Ip)
      modifies this
      ensures used == old(used) - {ip}
    {
      used := used - {ip};
    }
  }

  // What the scan examines, numerically.

  /** The address `k` places after `s`. */
  function At(s: Ip, k: nat): (ip: Ip)
    requires Val(s) + k < Size(|s|)
    ensures |ip| == |s| && Val(ip) == Val(s) + k
  {
    Encode(Val(s) + k, |s|)
  }

  function Min(a: int, b: int): int { if a < b then a else b }

  /** The number of the first IPv4-mapped address, ::ffff:0:0. */
  const MAPPED: nat := 0xFFFF_0000_0000

  const MARKER: seq<byte> := [0, 0, 0, 0, 0, 0, 0, 0, 0, 0, 255, 255]

  /** The mapped addresses are one block of numbers. */
  lemma MappedIsBlock(x: Ip)
    requires |x| == 16
    ensures Mapped(x) <==> MAPPED <= Val(x) < MAPPED + Size(4)
  {
    var front, back := x[..12], x[12..];
    MarkerIs();
    assert x == front + back;
    ValConcat(front, back);
    ValBound(back);
    if Val(front) == Val(MARKER) {
      ValInjective(front, MARKER);
    }
    assert Mapped(x) <==> front == MARKER;
  }

  lemma MarkerIs()
    ensures Val(MARKER) == 65535 && Size(4) == 0x1_0000_0000
  {
    var zeros := Fill(0, 10);
    Extremes(10);
    ValSnoc(zeros, 255);
    ValSnoc(zeros + [255], 255);
    assert MARKER == zeros + [255] + [255];
    assert Size(2) == 65536;
    assert Size(4) == Size(2) * 65536;
  }

  /** The address of an `n`-byte range that the scan knows by `key`. */
  function Behind(key: Ip, n: nat): (ip: Ip) {
    if |key| == 4 && n == 16 then MARKER + key else key
  }

  lemma BehindKey(y: Ip)
    ensures Behind(Normalize(y), |y|) == y
  {
  }

  /** The scan passes the all-ones address, and goes on from zero. */
  predicate Wraps(start: Ip, end: Ip, maxScan: nat) {
    Val(start) <= Val(end) == Size(|end|) - 1 && Val(end) - Val(start) + 1 < maxScan
  }

  /** The first `maxScan` addresses of a range. */
  predicate InWindow(x: Ip, start: Ip, end: Ip, maxScan: nat) {
    |x| == |start| && Val(start) <= Val(x) <= Val(end) && Val(x) < Val(start) + maxScan
  }

  predicate Scanned(x: Ip, start: Ip, end: Ip, maxScan: nat) {
    || InWindow(x, start, end, maxScan)
    || (|x| == |start| && Wraps(start, end, maxScan)
        && Val(x) < Val(start) && Val(x) + Size(|x|) < Val(start) + maxScan)
  }

  /** For all bounds of one family, the scan examines the scanned addresses under their keys. */
  lemma {:induction false} VisitedIff(start: Ip, end: Ip, maxScan: nat, key: Ip)
    requires |start| == |end|
    ensures key in Visited(start, end, maxScan)
            <==> Normalize(Behind(key, |start|)) == key && Scanned(Behind(key, |start|), start, end, maxScan)
    decreases maxScan
  {
    hide Val, Size, Encode, Compare;
    CompareIsNumeric(start, end);
    ValBound(start);
    ValBound(end);
    var y := Behind(key, |start|);
    ValBound(y);
    if maxScan > 0 && Val(start) <= Val(end) {
      var next: Ip := Succ(start);
      VisitedIff(next, end, maxScan - 1, key);
      assert Visited(start, end, maxScan) == [Normalize(start)] + Visited(next, end, maxScan - 1);
      BehindKey(start);
      if |y| == |start| && Val(y) == Val(start) {
        ValInjective(y, start);
      }
    }
  }

  /** As long as `end` is not overrun, the scan examines consecutive addresses. */
  lemma {:induction false} VisitedInside(start: Ip, end: Ip, budget: nat, k: nat)
    requires |start| == |end| && k < budget && Val(start) + k <= Val(end)
    ensures Val(end) < Size(|start|)
    ensures |Visited(start, end, budget)| > k
    ensures Visited(start, end, budget)[k] == Normalize(At(start, k))
    decreases k
  {
    hide Val, Size, Encode, Compare;
    ValBound(end);
    CompareIsNumeric(start, end);
    if k == 0 {
      ValInjective(start, At(start, 0));
    } else {
      var next: Ip := Succ(start);
      VisitedInside(next, end, budget - 1, k - 1);
      assert Visited(start, end, budget)[k] == Visited(next, end, budget - 1)[k - 1];
      ValInjective(At(start, k), At(next, k - 1));
    }
  }

  function WindowSize(start: Ip, end: Ip, maxScan: nat): (n: nat) {
    if Val(start) > Val(end) then 0 else Min(maxScan, Val(end) - Val(start) + 1)
  }

  /** A scan that does not wrap stops at `end` or at the limit. */
  lemma {:induction false} VisitedLength(start: Ip, end: Ip, budget: nat)
    requires |start| == |end| && !Wraps(start, end, budget)
    ensures |Visited(start, end, budget)| == WindowSize(start, end, budget)
    decreases budget
  {
    hide Val, Size, Encode, Compare;
    CompareIsNumeric(start, end);
    ValBound(start);
    ValBound(end);
    if budget > 0 && Val(start) <= Val(end) && Val(start) + 1 < Size(|start|) {
      VisitedLength(Succ(start), end, budget - 1);
    }
  }

  /** Unless it wraps, the scan examines exactly the first `maxScan` addresses of the range, in ascending order. */
  lemma VisitedIsWindow(start: Ip, end: Ip, maxScan: nat)
    requires |start| == |end| && !Wraps(start, end, maxScan)
    ensures Val(end) < Size(|start|)
    ensures |Visited(start, end, maxScan)| == WindowSize(start, end, maxScan)
    ensures forall k :: 0 <= k < |Visited(start, end, maxScan)| ==>
              Visited(start, end, maxScan)[k] == Normalize(At(start, k))
  {
    hide Val, Size, Encode, Compare;
    ValBound(end);
    VisitedLength(start, end, maxScan);
    forall k | 0 <= k < |Visited(start, end, maxScan)|
      ensures Visited(start, end, maxScan)[k] == Normalize(At(start, k))
    {
      VisitedInside(start, end, maxScan, k);
    }
  }

  predicate Distinct(keys: seq<Ip>) {
    forall i, j :: 0 <= i < j < |keys| ==> keys[i] != keys[j]
  }

  /** The keys of a window stand for ascending addresses, and so are distinct. */
  lemma VisitedAscends(start: Ip, end: Ip, maxScan: nat)
    requires |start| == |end| && !Wraps(start, end, maxScan)
    ensures var keys := Visited(start, end, maxScan);
            && (forall i, j :: 0 <= i < j < |keys| ==> Val(Behind(keys[i], |start|)) < Val(Behind(keys[j], |start|)))
            && Distinct(keys)
  {
    hide Val, Size, Encode, Compare;
    VisitedIsWindow(start, end, maxScan);
    var keys := Visited(start, end, maxScan);
    forall k | 0 <= k < |keys| ensures Val(Behind(keys[k], |start|)) == Val(start) + k {
      BehindKey(At(start, k));
    }
  }

  lemma {:induction false} FirstUnusedIsFirst(keys: seq<Ip>, used: set<Ip>, k: nat)
    requires k < |keys| && keys[k] !in used && forall j :: 0 <= j < k ==> keys[j] in used
    ensures FirstUnused(keys, used) == Ok(keys[k])
    decreases k
  {
    if k > 0 {
      FirstUnusedIsFirst(keys[1..], used, k - 1);
    }
  }

  lemma {:induction false} FirstUnusedIndex(keys: seq<Ip>, used: set<Ip>) returns (k: nat)
    requires FirstUnused(keys, used).Ok?
    ensures k < |keys| && FirstUnused(keys, used) == Ok(keys[k])
    ensures forall j :: 0 <= j < k ==> keys[j] in used
  {
    k := 0;
    if keys[0] in used {
      k := FirstUnusedIndex(keys[1..], used);
      k := k + 1;
    }
  }

  /**
    AllocateIP hands out the least address among the first `maxScan` of the
    range whose key is unused, and fails exactly when all of their keys are used.
   */
  lemma PickIsLeastFree(used: set<Ip>, r: Range, maxScan: nat)
    requires Bounds(r).Ok? && !Degenerate(r) && |Bounds(r).value.0| == |Bounds(r).value.1|
    requires !Wraps(Bounds(r).value.0, Bounds(r).value.1, maxScan)
    ensures var (start, end) := Bounds(r).value;
            match Pick(used, r, maxScan)
            case Err => forall x: Ip :: InWindow(x, start, end, maxScan) ==> Normalize(x) in used
            case Ok(ip) =>
              var y := Behind(ip, |start|);
              && InWindow(y, start, end, maxScan) && ip == Normalize(y) && ip !in used
              && forall x: Ip :: InWindow(x, start, end, maxScan) && Normalize(x) !in used ==> Val(y) <= Val(x)
  {
    hide Val, Size, Encode, Compare, Bounds, Visited, At, Behind, Normalize;
    var (start, end) := Bounds(r).value;
    VisitedIsWindow(start, end, maxScan);
    var keys := Visited(start, end, maxScan);
    forall x: Ip | InWindow(x, start, end, maxScan)
      ensures var j := Val(x) - Val(start); 0 <= j < |keys| && keys[j] == Normalize(x)
    {
      WindowKey(start, end, maxScan, x);
    }
    if Pick(used, r, maxScan).Ok? {
      var k := FirstUnusedIndex(keys, used);
      BehindKey(At(start, k));
    }
  }

  lemma WindowKey(start: Ip, end: Ip, maxScan: nat, x: Ip)
    requires |start| == |end| && !Wraps(start, end, maxScan) && InWindow(x, start, end, maxScan)
    ensures var j := Val(x) - Val(start);
            j < |Visited(start, end, maxScan)| && Visited(start, end, maxScan)[j] == Normalize(x)
  {
    hide Val, Size, Encode, Compare;
    VisitedIsWindow(start, end, maxScan);
    ValInjective(x, At(start, Val(x) - Val(start)));
  }

  /** No address the scan examines has an unused key, and the range is not handed out regardless. */
  ghost predicate Exhausted(used: set<Ip>, r: Range, maxScan: nat)
    requires Bounds(r).Ok?
  {
    !Degenerate(r) &&
    forall x: Ip :: Scanned(x, Bounds(r).value.0, Bounds(r).value.1, maxScan) ==> Normalize(x) in used
  }

  /** AllocateIP fails exactly on an exhausted range, wherever the range ends. */
  lemma PickFailsIff(used: set<Ip>, r: Range, maxScan: nat)
    requires Bounds(r).Ok? && |Bounds(r).value.0| == |Bounds(r).value.1|
    ensures Pick(used, r, maxScan).Err? <==> Exhausted(used, r, maxScan)
  {
    hide Val, Size, Encode, Compare, Scanned, Bounds;
    var (start, end) := Bounds(r).value;
    var keys := Visited(start, end, maxScan);
    forall key: Ip
      ensures key in keys <==>
              Normalize(Behind(key, |start|)) == key && Scanned(Behind(key, |start|), start, end, maxScan)
    {
      VisitedIff(start, end, maxScan, key);
    }
    forall x: Ip | Scanned(x, start, end, maxScan) ensures Normalize(x) in keys {
      ScannedLength(x, start, end, maxScan);
      BehindKey(x);
    }
  }

  lemma ScannedLength(x: Ip, start: Ip, end: Ip, maxScan: nat)
    requires Scanned(x, start, end, maxScan)
    ensures |x| == |start|
  {
  }

  /** An address is handed out from some state of the pool exactly when the scan can examine it. */
  lemma Reachable(r: Range, maxScan: nat, x: Ip)
    requires Bounds(r).Ok? && !Degenerate(r)
    ensures (exists used :: Pick(used, r, maxScan) == Ok(x))
            <==> x in Visited(Bounds(r).value.0, Bounds(r).value.1, maxScan)
  {
    var keys := Visited(Bounds(r).value.0, Bounds(r).value.1, maxScan);
    if x in keys {
      var used := (set y | y in keys) - {x};
      assert FirstUnused(keys, used).value == x;
      assert Pick(used, r, maxScan) == Ok(x);
    }
  }

  /** Within the scan limit, the allocatable addresses of the range's family are those some state hands out. */
  lemma AllocatableIsReachable(r: Range, maxScan: nat, x: Ip)
    requires Bounds(r).Ok? && !Degenerate(r) && |Bounds(r).value.0| == |Bounds(r).value.1|
    requires !Wraps(Bounds(r).value.0, Bounds(r).value.1, maxScan)
    requires Val(Bounds(r).value.1) - Val(Bounds(r).value.0) < maxScan
    requires |x| == |Bounds(r).value.0| && !Mapped(x)
    ensures IPAllocatable(Ok(x), r) <==> exists used :: Pick(used, r, maxScan) == Ok(x)
  {
    hide Val, Size, Encode, Compare;
    var (start, end) := Bounds(r).value;
    CompareIsNumeric(x, start);
    CompareIsNumeric(x, end);
    VisitedIff(start, end, maxScan, x);
    Reachable(r, maxScan, x);
  }
}
