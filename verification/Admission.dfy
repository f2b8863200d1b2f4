/** api/v1/heliosconfig_webhook.go: admission of non-overlapping ranges. */
module Admission {
  import opened Bytes
  import opened Parse
  import opened Allocator
  import opened Containment
  import opened Cluster
  import opened Manager

  /** The address ranges of a HeliosConfig spec. */
  datatype Spec = Spec(range4: Range, range6: Option<Range>)

  predicate ValidRange(r: Range) {
    match r
    case Malformed => false
    case Single(_) => true
    case Cidr(ip, ones) => ones <= 8 * |ip|
    case Span(first, last) => |Normalize(first)| == |Normalize(last)| && CompareIPs(first, last) <= 0
  }

  predicate ValidSpec(spec: Spec) {
    ValidRange(spec.range4) && (spec.range6.Some? ==> ValidRange(spec.range6.value))
  }

  /** The webhook's test on two ranges; one that does not parse overlaps nothing. */
  predicate Overlaps(r: Range, existing: Range) {
    && Bounds(r).Ok? && Bounds(existing).Ok?
    && CompareIPs(Bounds(r).value.0, Bounds(existing).value.1) <= 0
    && CompareIPs(Bounds(r).value.1, Bounds(existing).value.0) >= 0
  }

  function RangeOf(spec: Spec, useIPv6: bool): (r: Option<Range>) {
    if useIPv6 then spec.range6 else Some(spec.range4)
  }

  type Items = seq<(Key, Spec)>

  /** overlapForRange: an existing config, other than those named `exclude`, whose range overlaps. */
  method OverlapForRange(r: Range, exclude: string, items: Items, useIPv6: bool) returns (found: Option<Key>)
    ensures found.Some? <==> exists i :: 0 <= i < |items| && items[i].0.name != exclude
                                         && RangeOf(items[i].1, useIPv6).Some?
                                         && Overlaps(r, RangeOf(items[i].1, useIPv6).value)
    ensures found.Some? ==> found.value.name != exclude
  {
    hide Bounds, CompareIPs;
    var wanted := ParseIPRange(r);
    if wanted.Err? { return None; }
    for i := 0 to |items|
      invariant forall j :: 0 <= j < i && items[j].0.name != exclude && RangeOf(items[j].1, useIPv6).Some? ==>
                  !Overlaps(r, RangeOf(items[j].1, useIPv6).value)
    {
      if items[i].0.name == exclude { continue; }
      var existing := RangeOf(items[i].1, useIPv6);
      if existing.None? { continue; }
      var bounds := ParseIPRange(existing.value);
      if bounds.Err? { continue; }
      if CompareIPs(wanted.value.0, bounds.value.1) <= 0 && CompareIPs(wanted.value.1, bounds.value.0) >= 0 {
        assert Overlaps(r, existing.value);
        return Some(items[i].0);
      }
    }
    return None;
  }

  // The test, semantically.

  lemma NormalizeTwice(ip: Ip)
    ensures Normalize(Normalize(ip)) == Normalize(ip) && !Mapped(Normalize(ip))
  {
  }

  lemma {:induction false} BroadcastAt(net: seq<byte>, ones: nat, i: nat)
    requires i < |net|
    ensures Broadcast(net, ones)[i] == Or(net[i], Not(MaskByte(ones - 8 * i)))
    decreases |net|
  {
    if i < |net| - 1 {
      BroadcastAt(net[..|net| - 1], ones, i);
    }
  }

  lemma OrAllOnes(b: byte)
    ensures Or(b, Not(0)) == 255
  {
    var w := 8;
    Pow2Eight();
    LowBits(b, w, w);
    SameFloor(b, b, w);
    SameFloor(0, b, w);
  }

  /** A sixteen-byte block can end at a mapped address only if it ends at its last one. */
  lemma MappedEnd(net: Ip, ones: nat)
    requires |net| == 16 && !Mapped(net) && Mapped(Broadcast(net, ones))
    ensures Broadcast(net, ones)[12] == 255
  {
    hide Or;
    if ones >= 96 {
      forall i | 0 <= i < 12 ensures Broadcast(net, ones)[i] == net[i] {
        BroadcastAt(net, ones, i);
        FullMask(net[i]);
      }
      assert false;
    } else {
      BroadcastAt(net, ones, 12);
      OrAllOnes(net[12]);
    }
  }

  /** Bounds start at a normalized address, and normalizing their end does not lower it. */
  lemma BoundsNormal(r: Range)
    requires Bounds(r).Ok?
    ensures Normalize(Bounds(r).value.0) == Bounds(r).value.0
    ensures Compare(Bounds(r).value.1, Normalize(Bounds(r).value.1)) <= 0
  {
    var (start, end) := Bounds(r).value;
    CompareReversed(end, end);
    match r {
      case Single(ip) => NormalizeTwice(ip);
      case Span(first, last) => NormalizeTwice(first); NormalizeTwice(last);
      case Cidr(ip, ones) =>
        var net := Normalize(Network(ip, ones));
        NormalizeTwice(Network(ip, ones));
        if |ip| == 16 && Mapped(end) {
          MappedEnd(net, ones);
        }
    }
  }

  /** Ranges that the test passes share no allocatable address. */
  lemma NoOverlapIsDisjoint(r1: Range, r2: Range, x: Ip)
    requires IPAllocatable(Ok(x), r1) && IPAllocatable(Ok(x), r2)
    ensures Overlaps(r1, r2)
  {
    hide Bounds, Compare;
    BoundsNormal(r1);
    BoundsNormal(r2);
    var (s1, e1) := Bounds(r1).value;
    var (s2, e2) := Bounds(r2).value;
    var y := Normalize(x);
    Chain(s1, y, e2);
    Chain(s2, y, e1);
  }

  lemma Chain(s: Ip, y: Ip, e: Ip)
    requires Compare(y, s) >= 0 && Compare(y, e) <= 0
    requires Normalize(s) == s && Compare(e, Normalize(e)) <= 0
    ensures CompareIPs(s, e) <= 0 && CompareIPs(e, s) >= 0
  {
    hide Compare;
    CompareReversed(y, s);
    CompareTransitive(s, y, e);
    CompareTransitive(s, e, Normalize(e));
    CompareReversed(s, Normalize(e));
  }

  lemma ValidIsOrdered(r: Range)
    requires ValidRange(r)
    ensures Bounds(r).Ok? && Compare(Bounds(r).value.0, Bounds(r).value.1) <= 0
  {
    var (start, end) := Bounds(r).value;
    match r {
      case Single(ip) => CompareReversed(start, start);
      case Span(_, _) =>
      case Cidr(ip, ones) =>
        if |ip| == 4 && ones <= 30 {
          SubnetBounds(ip, ones);
          CompareIsNumeric(start, end);
        } else if Mapped(Network(ip, ones)) {
          MappedCidrCollapses(ip, ones);
          CompareReversed(start, start);
        } else {
          BlockBounds(ip, ones);
          CompareIsNumeric(start, end);
        }
    }
  }

  /** A range is valid exactly when it has bounds of one family, in order. */
  lemma ValidIff(r: Range)
    ensures ValidRange(r) <==>
            && Bounds(r).Ok? && |Bounds(r).value.0| == |Bounds(r).value.1|
            && Compare(Bounds(r).value.0, Bounds(r).value.1) <= 0
  {
    if ValidRange(r) {
      ValidIsOrdered(r);
    }
  }

  /** The bounds as allocation uses them, without normalizing their ends, have a common part. */
  predicate Meets(r1: Range, r2: Range) {
    && Bounds(r1).Ok? && Bounds(r2).Ok?
    && Compare(Bounds(r1).value.0, Bounds(r2).value.1) <= 0
    && Compare(Bounds(r2).value.0, Bounds(r1).value.1) <= 0
  }

  lemma MeetsIff(r1: Range, r2: Range)
    requires ValidRange(r1) && ValidRange(r2)
    ensures Meets(r1, r2) <==> exists x: Ip :: IPAllocatable(Ok(x), r1) && IPAllocatable(Ok(x), r2)
  {
    hide Bounds, Compare, ValidRange;
    ValidIsOrdered(r1);
    ValidIsOrdered(r2);
    BoundsNormal(r1);
    BoundsNormal(r2);
    var (s1, e1) := Bounds(r1).value;
    var (s2, e2) := Bounds(r2).value;
    if Meets(r1, r2) {
      CompareReversed(s1, s2);
      CompareReversed(s1, s1);
      CompareReversed(s2, s2);
      var x := if Compare(s1, s2) >= 0 then s1 else s2;
      assert IPAllocatable(Ok(x), r1) && IPAllocatable(Ok(x), r2);
    }
    if x: Ip :| IPAllocatable(Ok(x), r1) && IPAllocatable(Ok(x), r2) {
      var y := Normalize(x);
      CompareReversed(y, s1);
      CompareReversed(y, s2);
      CompareTransitive(s1, y, e2);
      CompareTransitive(s2, y, e1);
    }
  }

  /**
    The first range ends at a mapped address, which the test turns into
    255.255.255.255, and the second starts after the one and not after the other.
   */
  predicate LooksPast(r1: Range, r2: Range) {
    && Bounds(r1).Ok? && Bounds(r2).Ok?
    && Mapped(Bounds(r1).value.1)
    && Compare(Bounds(r1).value.1, Bounds(r2).value.0) < 0
    && Compare(Bounds(r2).value.0, Normalize(Bounds(r1).value.1)) <= 0
  }

  /** The test reports exactly the ranges with a common address and those that one looks past its end into. */
  lemma OverlapsIff(r1: Range, r2: Range)
    requires ValidRange(r1) && ValidRange(r2)
    ensures Overlaps(r1, r2) <==>
            || (exists x: Ip :: IPAllocatable(Ok(x), r1) && IPAllocatable(Ok(x), r2))
            || LooksPast(r1, r2) || LooksPast(r2, r1)
    ensures LooksPast(r1, r2) || LooksPast(r2, r1) ==>
              !exists x: Ip :: IPAllocatable(Ok(x), r1) && IPAllocatable(Ok(x), r2)
  {
    hide Bounds, Compare, ValidRange, IPAllocatable;
    MeetsIff(r1, r2);
    ValidIsOrdered(r1);
    ValidIsOrdered(r2);
    BoundsNormal(r1);
    BoundsNormal(r2);
    var (s1, e1) := Bounds(r1).value;
    var (s2, e2) := Bounds(r2).value;
    CompareReversed(e1, s2);
    CompareReversed(e2, s1);
    CompareReversed(s1, Normalize(e2));
    CompareReversed(s2, Normalize(e1));
    Between(s1, e1, s2, e2);
    Between(s2, e2, s1, e1);
  }

  /** How two bounded ranges can lie, when normalizing an end does not lower it. */
  lemma Between(s1: Ip, e1: Ip, s2: Ip, e2: Ip)
    requires Compare(s1, e1) <= 0 && Compare(s2, e2) <= 0 && Compare(e2, Normalize(e2)) <= 0
    ensures Compare(s1, e2) <= 0 ==> Compare(s1, Normalize(e2)) <= 0
    ensures Compare(e1, s2) < 0 ==> Compare(s1, e2) <= 0 && Compare(s1, Normalize(e2)) <= 0
  {
    hide Compare;
    if Compare(s1, e2) <= 0 {
      CompareTransitive(s1, e2, Normalize(e2));
    }
    if Compare(e1, s2) < 0 {
      CompareTransitive(s1, e1, s2);
      CompareTransitive(s1, s2, e2);
      CompareTransitive(s1, e2, Normalize(e2));
    }
  }

  // Sequences of requests.

  /** A request; `listOk` tells whether the webhook could list the configs. */
  datatype Step =
    | Create(key: Key, spec: Spec, listOk: bool)
    | Update(key: Key, spec: Spec, listOk: bool)
    | Delete(key: Key)

  predicate ClashFree(configs: map<Key, Spec>, spec: Spec, exclude: string) {
    forall k :: k in configs && k.name != exclude ==>
      && !Overlaps(spec.range4, configs[k].range4)
      && (spec.range6.Some? && configs[k].range6.Some? ==> !Overlaps(spec.range6.value, configs[k].range6.value))
  }

  ghost predicate Lists(items: Items, configs: map<Key, Spec>) {
    && (forall i :: 0 <= i < |items| ==> items[i].0 in configs && configs[items[i].0] == items[i].1)
    && (forall k :: k in configs ==> exists i :: 0 <= i < |items| && items[i].0 == k)
  }

  /** checkIPRangeOverlap: a listing that fails skips the check rather than blocking. */
  method CheckIPRangeOverlap(spec: Spec, exclude: string, items: Items, listOk: bool, ghost configs: map<Key, Spec>)
    returns (ok: bool)
    requires Lists(items, configs)
    ensures ok <==> !listOk || ClashFree(configs, spec, exclude)
  {
    hide Overlaps;
    if !listOk { return true; }
    var clash := OverlapForRange(spec.range4, exclude, items, false);
    if clash.Some? { return false; }
    if spec.range6.Some? {
      clash := OverlapForRange(spec.range6.value, exclude, items, true);
    }
    return clash.None?;
  }

  /** Two ranges share an allocatable address, or the test looks past the end of one into the other. */
  ghost predicate Reported(r1: Range, r2: Range) {
    || (exists x: Ip :: IPAllocatable(Ok(x), r1) && IPAllocatable(Ok(x), r2))
    || LooksPast(r1, r2) || LooksPast(r2, r1)
  }

  /** The check passes a valid spec exactly when no field is reported against the same field of a config compared. */
  lemma ClashFreeIff(configs: map<Key, Spec>, spec: Spec, exclude: string)
    requires WellFormed(configs) && ValidSpec(spec)
    ensures ClashFree(configs, spec, exclude) <==>
            forall k :: k in configs && k.name != exclude ==>
              && !Reported(spec.range4, configs[k].range4)
              && (spec.range6.Some? && configs[k].range6.Some? ==>
                    !Reported(spec.range6.value, configs[k].range6.value))
  {
    hide Overlaps, Reported, ValidRange;
    forall k | k in configs
      ensures Overlaps(spec.range4, configs[k].range4) <==> Reported(spec.range4, configs[k].range4)
      ensures spec.range6.Some? && configs[k].range6.Some? ==>
                (Overlaps(spec.range6.value, configs[k].range6.value)
                 <==> Reported(spec.range6.value, configs[k].range6.value))
    {
      ReportedIff(spec.range4, configs[k].range4);
      if spec.range6.Some? && configs[k].range6.Some? {
        ReportedIff(spec.range6.value, configs[k].range6.value);
      }
    }
  }

  lemma ReportedIff(r1: Range, r2: Range)
    requires ValidRange(r1) && ValidRange(r2)
    ensures Overlaps(r1, r2) <==> Reported(r1, r2)
  {
    hide Overlaps, LooksPast, IPAllocatable, ValidRange;
    OverlapsIff(r1, r2);
  }

  /** The name whose configs the overlap check passes over. */
  function Excluded(step: Step): (name: string) {
    if step.Update? then step.key.name else ""
  }

  /** The API server takes the request and the webhook lets it pass. */
  predicate Accepted(configs: map<Key, Spec>, step: Step) {
    if step.Delete? then step.key in configs else
      && (step.Update? <==> step.key in configs)
      && step.key.name != "" && ValidSpec(step.spec)
      && (step.listOk ==> ClashFree(configs, step.spec, Excluded(step)))
  }

  function After(configs: map<Key, Spec>, step: Step): (configs': map<Key, Spec>) {
    if step.Delete? then configs - {step.key} else configs[step.key := step.spec]
  }

  ghost predicate Shares(a: Spec, b: Spec, x: Ip) {
    || (IPAllocatable(Ok(x), a.range4) && IPAllocatable(Ok(x), b.range4))
    || (a.range6.Some? && b.range6.Some?
        && IPAllocatable(Ok(x), a.range6.value) && IPAllocatable(Ok(x), b.range6.value))
  }

  /** Distinct configs share no allocatable address, IPv4 field by IPv4 field and IPv6 by IPv6. */
  ghost predicate Disjoint(configs: map<Key, Spec>) {
    forall k1, k2, x :: k1 in configs && k2 in configs && k1 != k2 ==> !Shares(configs[k1], configs[k2], x)
  }

  /** Object names are not empty, and every spec passed its own admission. */
  predicate WellFormed(configs: map<Key, Spec>) {
    forall k :: k in configs ==> k.name != "" && ValidSpec(configs[k])
  }

  lemma ClashFreeIsDisjoint(configs: map<Key, Spec>, spec: Spec, exclude: string, k: Key, x: Ip)
    requires ClashFree(configs, spec, exclude) && k in configs && k.name != exclude
    ensures !Shares(spec, configs[k], x)
  {
    hide IPAllocatable, Overlaps;
    if IPAllocatable(Ok(x), spec.range4) && IPAllocatable(Ok(x), configs[k].range4) {
      NoOverlapIsDisjoint(spec.range4, configs[k].range4, x);
    }
    if && spec.range6.Some? && configs[k].range6.Some?
       && IPAllocatable(Ok(x), spec.range6.value) && IPAllocatable(Ok(x), configs[k].range6.value) {
      NoOverlapIsDisjoint(spec.range6.value, configs[k].range6.value, x);
    }
  }

  predicate SpecsMeet(a: Spec, b: Spec) {
    Meets(a.range4, b.range4) || (a.range6.Some? && b.range6.Some? && Meets(a.range6.value, b.range6.value))
  }

  lemma SpecsMeetIff(a: Spec, b: Spec)
    requires ValidSpec(a) && ValidSpec(b)
    ensures SpecsMeet(a, b) <==> exists x :: Shares(a, b, x)
  {
    hide IPAllocatable, Meets, ValidRange;
    MeetsIff(a.range4, b.range4);
    if x: Ip :| IPAllocatable(Ok(x), a.range4) && IPAllocatable(Ok(x), b.range4) {
      assert Shares(a, b, x);
    }
    if a.range6.Some? && b.range6.Some? {
      MeetsIff(a.range6.value, b.range6.value);
      if x: Ip :| IPAllocatable(Ok(x), a.range6.value) && IPAllocatable(Ok(x), b.range6.value) {
        assert Shares(a, b, x);
      }
    }
  }

  /** The new spec keeps clear of the configs that the check passed over: namesakes, or all when the listing failed. */
  predicate Safe(configs: map<Key, Spec>, step: Step) {
    !step.Delete? ==>
      forall c :: c in configs && c != step.key && (!step.listOk || c.name == Excluded(step)) ==>
        !SpecsMeet(step.spec, configs[c])
  }

  /** An accepted request keeps the configs disjoint exactly when it is safe. */
  lemma StepKeepsDisjointIff(configs: map<Key, Spec>, step: Step)
    requires WellFormed(configs) && Disjoint(configs) && Accepted(configs, step)
    ensures WellFormed(After(configs, step))
    ensures Disjoint(After(configs, step)) <==> Safe(configs, step)
  {
    hide Shares, ClashFree, ValidSpec, SpecsMeet;
    if !step.Delete? {
      var configs' := After(configs, step);
      forall c | c in configs && c != step.key
        ensures (exists x :: Shares(step.spec, configs[c], x)) <==>
                (!step.listOk || c.name == Excluded(step)) && SpecsMeet(step.spec, configs[c])
      {
        SpecsMeetIff(step.spec, configs[c]);
        if step.listOk && c.name != Excluded(step) {
          forall x ensures !Shares(step.spec, configs[c], x) {
            ClashFreeIsDisjoint(configs, step.spec, Excluded(step), c, x);
          }
        }
      }
      forall a, b, x ensures Shares(a, b, x) <==> Shares(b, a, x) { SharesEither(a, b, x); }
      if c :| c in configs && c != step.key && exists x :: Shares(step.spec, configs[c], x) {
        var x :| Shares(step.spec, configs[c], x);
        assert Shares(configs'[step.key], configs'[c], x);
      }
    }
  }

  lemma SharesEither(a: Spec, b: Spec, x: Ip)
    ensures Shares(a, b, x) <==> Shares(b, a, x)
  {
  }

  /** The configs a sequence of accepted requests passes through, from disjoint ones. */
  ghost predicate Admissions(states: seq<map<Key, Spec>>, steps: seq<Step>) {
    && |states| == |steps| + 1 && WellFormed(states[0]) && Disjoint(states[0])
    && forall i :: 0 <= i < |steps| ==> Accepted(states[i], steps[i]) && states[i + 1] == After(states[i], steps[i])
  }

  lemma {:induction false} DisjointUpTo(states: seq<map<Key, Spec>>, steps: seq<Step>, i: nat)
    requires Admissions(states, steps) && i <= |steps|
    requires (forall j :: 0 <= j <= i ==> Disjoint(states[j])) || (forall j :: 0 <= j < i ==> Safe(states[j], steps[j]))
    ensures WellFormed(states[i]) && Disjoint(states[i])
  {
    hide Disjoint, Safe, Accepted;
    if i > 0 {
      DisjointUpTo(states, steps, i - 1);
      StepKeepsDisjointIff(states[i - 1], steps[i - 1]);
    }
  }

  /** Over every sequence of accepted requests the configs stay disjoint if and only if every request is safe. */
  lemma AdmissionsDisjointIff(states: seq<map<Key, Spec>>, steps: seq<Step>)
    requires Admissions(states, steps)
    ensures (forall i :: 0 <= i <= |steps| ==> Disjoint(states[i]))
            <==> forall i :: 0 <= i < |steps| ==> Safe(states[i], steps[i])
  {
    hide Disjoint, Safe, Accepted;
    if forall i :: 0 <= i <= |steps| ==> Disjoint(states[i]) {
      forall i | 0 <= i < |steps| ensures Safe(states[i], steps[i]) {
        DisjointUpTo(states, steps, i);
        StepKeepsDisjointIff(states[i], steps[i]);
        assert states[i + 1] == After(states[i], steps[i]);
      }
    }
    if forall i :: 0 <= i < |steps| ==> Safe(states[i], steps[i]) {
      forall i | 0 <= i <= |steps| ensures Disjoint(states[i]) {
        DisjointUpTo(states, steps, i);
      }
    }
  }

  /** With names unique across namespaces and a listing, every accepted request is safe. */
  lemma UniqueNamesAreSafe(configs: map<Key, Spec>, step: Step)
    requires WellFormed(configs) && (step.Delete? || step.listOk)
    requires forall k1, k2 :: k1 in configs && k2 in configs && k1.name == k2.name ==> k1 == k2
    requires Accepted(configs, step)
    ensures Safe(configs, step)
  {
  }

  /**
    Whatever their pools contain and whatever is requested, two configs of a
    safe history are never handed one address, in the same field or across.
   */
  lemma NeverHandedTwice(states: seq<map<Key, Spec>>, steps: seq<Step>, i: nat, k1: Key, k2: Key,
                         cfg1: Config, used1: set<Ip>, request1: Request,
                         cfg2: Config, used2: set<Ip>, request2: Request, maxScan: nat)
    requires Admissions(states, steps) && i <= |steps| && forall j :: 0 <= j < i ==> Safe(states[j], steps[j])
    requires k1 in states[i] && k2 in states[i] && k1 != k2
    requires states[i][k1] == Spec(cfg1.range4, cfg1.range6) && states[i][k2] == Spec(cfg2.range4, cfg2.range6)
    requires FamilyCorrect(cfg1) && TameConfig(cfg1, maxScan) && FamilyCorrect(cfg2) && TameConfig(cfg2, maxScan)
    requires ChoosePair(used1, cfg1, request1, maxScan).Ok? && ChoosePair(used2, cfg2, request2, maxScan).Ok?
    ensures AddressesOf(ChoosePair(used1, cfg1, request1, maxScan).value)
            !! AddressesOf(ChoosePair(used2, cfg2, request2, maxScan).value)
  {
    hide ChoosePair, Accepted, IPAllocatable, TameConfig, FamilyCorrect, Safe, ValidRange;
    DisjointUpTo(states, steps, i);
    PairIsAllocatable(used1, cfg1, request1, maxScan);
    PairIsAllocatable(used2, cfg2, request2, maxScan);
    var ips1 := ChoosePair(used1, cfg1, request1, maxScan).value;
    var ips2 := ChoosePair(used2, cfg2, request2, maxScan).value;
    forall x | x in AddressesOf(ips1) ensures x !in AddressesOf(ips2) {
      assert !Shares(states[i][k1], states[i][k2], x);
    }
  }

  predicate TameConfig(cfg: Config, maxScan: nat) {
    Tame(cfg.range4, maxScan) && (cfg.range6.Some? ==> Tame(cfg.range6.value, maxScan))
  }

  /** Each address of a call is allocatable in its field's range, and of its field's family. */
  lemma PairIsAllocatable(used: set<Ip>, cfg: Config, request: Request, maxScan: nat)
    requires FamilyCorrect(cfg) && TameConfig(cfg, maxScan) && ChoosePair(used, cfg, request, maxScan).Ok?
    requires ValidSpec(Spec(cfg.range4, cfg.range6))
    ensures var ips := ChoosePair(used, cfg, request, maxScan).value;
            && IPAllocatable(Ok(ips.0), cfg.range4) && |ips.0| == 4
            && (ips.1.Some? ==>
                  cfg.range6.Some? && IPAllocatable(Ok(ips.1.value), cfg.range6.value) && |ips.1.value| == 16)
  {
    hide Choose, IPAllocatable, Tame, ValidRange;
    var (want4, want6) := SplitRequest(request);
    var ips := ChoosePair(used, cfg, request, maxScan).value;
    ChosenIsAllocatable(used, cfg.range4, want4, maxScan);
    if cfg.range6.Some? {
      ChosenIsAllocatable(used + {ips.0}, cfg.range6.value, want6, maxScan);
    }
  }

  /** Exactly the ranges to which AllocateIP is confined, of those that pass validation. */
  predicate Tame(r: Range, maxScan: nat) {
    Bounds(r).Ok? ==>
      && !Overruns(Bounds(r).value.0, Bounds(r).value.1, maxScan)
      && !MeetsMapped(Bounds(r).value.0, Bounds(r).value.1, maxScan)
  }

  lemma ChosenIsAllocatable(used: set<Ip>, r: Range, want: Option<Ip>, maxScan: nat)
    requires ValidRange(r) && Tame(r, maxScan) && Choose(used, r, want, maxScan).Ok?
    ensures IPAllocatable(Ok(Choose(used, r, want, maxScan).value), r)
    ensures |Choose(used, r, want, maxScan).value|
            == if want.Some? then |Normalize(want.value)| else |Bounds(r).value.0|
  {
    hide Compare, Overruns, MeetsMapped;
    if want.None? {
      HandedIsAllocatable(used, r, maxScan);
    } else {
      NormalizeTwice(want.value);
    }
  }

  /** ::/80 ends at ::ffff:255.255.255.255, and so is reported to overlap fd00::-fe00::. */
  lemma FalseAlarmExample()
    ensures var r1, r2 := Cidr(Fill(0, 16), 80), Span([253] + Fill(0, 15), [254] + Fill(0, 15));
            && ValidRange(r1) && ValidRange(r2) && Overlaps(r1, r2)
            && !exists x: Ip :: IPAllocatable(Ok(x), r1) && IPAllocatable(Ok(x), r2)
  {
    hide Compare, Network, Broadcast;
    var r1, r2 := Cidr(Fill(0, 16), 80), Span([253] + Fill(0, 15), [254] + Fill(0, 15));
    DecidedAt([253] + Fill(0, 15), [254] + Fill(0, 15), 0);
    var last := Broadcast(Fill(0, 16), 80);
    LastOfEighty(last);
    DecidedAt(last, [253] + Fill(0, 15), 0);
    DecidedAt([253] + Fill(0, 15), last[12..], 0);
    OverlapsIff(r1, r2);
  }

  lemma LastOfEighty(last: seq<byte>)
    requires last == Broadcast(Fill(0, 16), 80)
    ensures Network(Fill(0, 16), 80) == Fill(0, 16)
    ensures Mapped(last) && last[12] == 255 && last[0] == 0
  {
    hide Or, And, Val;
    var zeros := Fill(0, 16);
    forall i | 0 <= i < 16 ensures Network(zeros, 80)[i] == 0 {
      NetworkAt(zeros, 80, i);
      MaskOneByte(0, 80 - 8 * i);
      SameFloor(0, 0, ByteHostBits(80 - 8 * i));
    }
    forall i | 0 <= i < 16 ensures last[i] == if i < 10 then 0 else 255 {
      BroadcastAt(zeros, 80, i);
      FullMask(0);
      OrAllOnes(0);
    }
  }

  // Requests that are accepted and not safe.

  const LOW := Spec(Span([10, 0, 0, 1], [10, 0, 0, 9]), None)
  const HIGH := Spec(Span([10, 0, 1, 1], [10, 0, 1, 9]), None)

  lemma LowAndHigh()
    ensures ValidSpec(LOW) && ValidSpec(HIGH)
    ensures !SpecsMeet(LOW, HIGH) && !SpecsMeet(HIGH, LOW) && SpecsMeet(HIGH, HIGH) && SpecsMeet(LOW, LOW)
    ensures !Overlaps(LOW.range4, HIGH.range4) && !Overlaps(HIGH.range4, LOW.range4)
  {
    hide Compare;
    DecidedAt([10, 0, 0, 1], [10, 0, 0, 9], 3);
    DecidedAt([10, 0, 1, 1], [10, 0, 1, 9], 3);
    DecidedAt([10, 0, 0, 9], [10, 0, 1, 1], 2);
  }

  /** Two namesakes start out disjoint; an update gives one of them the range of the other. */
  lemma NamesakeExample()
    ensures var a, b := Key("a", "pool"), Key("b", "pool");
            var configs, step := map[a := LOW, b := HIGH], Update(Key("a", "pool"), HIGH, true);
            && WellFormed(configs) && Disjoint(configs)
            && Accepted(configs, step) && !Disjoint(After(configs, step))
  {
    hide Shares, SpecsMeet, ValidSpec, Overlaps;
    var a, b := Key("a", "pool"), Key("b", "pool");
    assert a.ns[0] != b.ns[0];
    var configs, step := map[a := LOW, b := HIGH], Update(a, HIGH, true);
    LowAndHigh();
    SpecsMeetIff(LOW, HIGH);
    SpecsMeetIff(HIGH, LOW);
    StepKeepsDisjointIff(configs, step);
    assert b in configs && SpecsMeet(HIGH, configs[b]);
  }

  /** When the listing fails, a new config may take the range of an existing one. */
  lemma ListFailureExample()
    ensures var configs, step := map[Key("a", "pool") := LOW], Create(Key("a", "spare"), LOW, false);
            && WellFormed(configs) && Disjoint(configs)
            && Accepted(configs, step) && !Disjoint(After(configs, step))
  {
    hide Shares, SpecsMeet, ValidSpec;
    var configs, step := map[Key("a", "pool") := LOW], Create(Key("a", "spare"), LOW, false);
    LowAndHigh();
    assert "pool"[0] != "spare"[0];
    StepKeepsDisjointIff(configs, step);
    assert Key("a", "pool") in configs && SpecsMeet(LOW, configs[Key("a", "pool")]);
  }
}
