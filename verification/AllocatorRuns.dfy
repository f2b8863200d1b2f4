/** Every sequence of calls on one allocator. */
module AllocatorRuns {
  import opened Bytes
  import opened Parse
  import opened Allocator

  datatype Call =
    | Allocate(range: Range)
    | AllocateSpecific(range: Range, requested: Result<Ip>)
    | MarkUsed(ip: Ip)
    | Release(ip: Ip)

  /** The address a call hands out, if any. */
  function Handed(used: set<Ip>, call: Call, maxScan: nat): (ip: Result<Ip>) {
    match call
    case Allocate(r) => Pick(used, r, maxScan)
    case AllocateSpecific(r, requested) => PickSpecific(used, r, requested)
    case MarkUsed(_) => Err
    case Release(_) => Err
  }

  function After(used: set<Ip>, call: Call, maxScan: nat): (used': set<Ip>) {
    match call
    case MarkUsed(ip) => used + {ip}
    case Release(ip) => used - {ip}
    case _ => if Handed(used, call, maxScan).Ok? then used + {Handed(used, call, maxScan).value} else used
  }

  /** The pool after a sequence of calls. */
  function Run(used: set<Ip>, calls: seq<Call>, maxScan: nat): (used': set<Ip>) {
    if calls == [] then used
    else After(Run(used, calls[..|calls| - 1], maxScan), calls[|calls| - 1], maxScan)
  }

  /** What the `i`-th call of a sequence hands out. */
  function HandedAt(used: set<Ip>, calls: seq<Call>, maxScan: nat, i: nat): (ip: Result<Ip>)
    requires i < |calls|
  {
    Handed(Run(used, calls[..i], maxScan), calls[i], maxScan)
  }

  /** The class follows the calls: AllocateIP, AllocateSpecificIP, MarkUsed and ReleaseIP. */
  method Perform(a: IPAllocator, call: Call) returns (ip: Result<Ip>)
    modifies a
    ensures ip == Handed(old(a.used), call, a.maxScan)
    ensures a.used == After(old(a.used), call, a.maxScan)
  {
    ip := Err;
    match call {
      case Allocate(r) => ip := a.AllocateIP(r);
      case AllocateSpecific(r, requested) => ip := a.AllocateSpecificIP(r, requested);
      case MarkUsed(x) => a.MarkUsed(x);
      case Release(x) => a.ReleaseIP(x);
    }
  }

  /** A used address stays used until it is released. */
  lemma {:induction false} StaysUsed(used: set<Ip>, calls: seq<Call>, maxScan: nat, i: nat, j: nat, ip: Ip)
    requires i <= j <= |calls| && ip in Run(used, calls[..i], maxScan)
    requires forall k :: i <= k < j ==> calls[k] != Release(ip)
    ensures ip in Run(used, calls[..j], maxScan)
  {
    if i < j {
      StaysUsed(used, calls, maxScan, i, j - 1, ip);
      assert calls[..j][..j - 1] == calls[..j - 1];
    }
  }

  /** No address is handed out twice without a release in between. */
  lemma NoDoubleHandout(used: set<Ip>, calls: seq<Call>, maxScan: nat, i: nat, j: nat, ip: Ip)
    requires i < j < |calls|
    requires HandedAt(used, calls, maxScan, i) == HandedAt(used, calls, maxScan, j) == Ok(ip)
    requires calls[j].Allocate? ==> !Degenerate(calls[j].range)
    ensures exists k :: i < k < j && calls[k] == Release(ip)
  {
    if forall k :: i < k < j ==> calls[k] != Release(ip) {
      assert calls[..i + 1][..i] == calls[..i];
      assert ip in Run(used, calls[..i + 1], maxScan);
      StaysUsed(used, calls, maxScan, i + 1, j, ip);
      assert false;
    }
  }

  function Repeated(r: Range, n: nat): (calls: seq<Call>)
    ensures |calls| == n
  {
    if n == 0 then [] else Repeated(r, n - 1) + [Allocate(r)]
  }

  /** The first `n` keys of a scan, or all of them. */
  function FirstKeys(keys: seq<Ip>, n: nat): (used: set<Ip>) {
    set k | 0 <= k < |keys| && k < n :: keys[k]
  }

  /** When the first `n` keys are the used ones, the next to go is the one after them. */
  lemma PickNext(keys: seq<Ip>, n: nat)
    requires Distinct(keys)
    ensures FirstUnused(keys, FirstKeys(keys, n)) == if n < |keys| then Ok(keys[n]) else Err
    ensures FirstKeys(keys, n + 1) == FirstKeys(keys, n) + if n < |keys| then {keys[n]} else {}
  {
    var used := FirstKeys(keys, n);
    assert forall k :: 0 <= k < |keys| ==> (keys[k] in used <==> k < n);
    if n < |keys| {
      FirstUnusedIsFirst(keys, used, n);
    }
  }

  /**
    From a fresh pool, calls on one range hand out its addresses in ascending
    order, one each, for the first min(size, scan limit) calls, and fail after.
   */
  lemma FreshPoolAscends(r: Range, maxScan: nat, n: nat)
    requires Bounds(r).Ok? && !Degenerate(r) && |Bounds(r).value.0| == |Bounds(r).value.1|
    requires !Wraps(Bounds(r).value.0, Bounds(r).value.1, maxScan)
    ensures var (start, end) := Bounds(r).value;
            && Val(end) < Size(|start|)
            && Pick(Run({}, Repeated(r, n), maxScan), r, maxScan)
               == if n < WindowSize(start, end, maxScan) then Ok(Normalize(At(start, n))) else Err
  {
    hide Val, Size, Encode, Compare;
    var (start, end) := Bounds(r).value;
    VisitedIsWindow(start, end, maxScan);
    VisitedAscends(start, end, maxScan);
    FreshPool(r, maxScan, n);
    PickNext(Visited(start, end, maxScan), n);
  }

  lemma RunSnoc(used: set<Ip>, calls: seq<Call>, call: Call, maxScan: nat)
    ensures Run(used, calls + [call], maxScan) == After(Run(used, calls, maxScan), call, maxScan)
  {
    assert (calls + [call])[..|calls|] == calls;
  }

  lemma {:induction false} FreshPool(r: Range, maxScan: nat, n: nat)
    requires Bounds(r).Ok? && !Degenerate(r)
    requires Distinct(Visited(Bounds(r).value.0, Bounds(r).value.1, maxScan))
    ensures Run({}, Repeated(r, n), maxScan)
            == FirstKeys(Visited(Bounds(r).value.0, Bounds(r).value.1, maxScan), n)
  {
    hide Bounds, Visited;
    if n > 0 {
      FreshPool(r, maxScan, n - 1);
      RunSnoc({}, Repeated(r, n - 1), Allocate(r), maxScan);
      PickNext(Visited(Bounds(r).value.0, Bounds(r).value.1, maxScan), n - 1);
    }
  }
}
