/** Exact fairness of weighted round robin over windows of tickets. */
module Fairness {
  import opened Bytes
  import opened Balancing

  /** With positive weights the walk always ends inside, so the fallback of Select is unreachable. */
  lemma {:induction false} WalkEndsInside(ws: seq<int>, point: int)
    requires Positive(ws) && 0 <= point < Sum(ws)
    ensures PickIndex(ws, point) < |ws|
  {
    if point >= ws[0] {
      WalkEndsInside(ws[1..], point - ws[0]);
    }
  }

  // Counting picks over an interval of points, of unbounded counts, or of 32-bit tickets.

  /** A backend is picked at exactly the points between the weights before it and its own. */
  lemma {:induction false} PickIsInterval(ws: seq<int>, point: int, i: nat)
    requires Positive(ws) && 0 <= point && i < |ws|
    ensures PickIndex(ws, point) == i <==> Sum(ws[..i]) <= point < Sum(ws[..i + 1])
  {
    var rest := ws[1..];
    assert ws[..i + 1][0] == ws[0] && ws[..i + 1][1..] == rest[..i];
    if i == 0 {
      assert ws[..1][1..] == [];
    } else {
      assert ws[..i][0] == ws[0] && ws[..i][1..] == rest[..i - 1];
      SumNonNegative(rest[..i - 1]);
      if point >= ws[0] {
        PickIsInterval(rest, point - ws[0], i - 1);
      }
    }
  }

  lemma {:induction false} SumNonNegative(ws: seq<int>)
    requires Positive(ws)
    ensures Sum(ws) >= 0
  {
    if ws != [] {
      SumNonNegative(ws[1..]);
    }
  }

  datatype Draw = Point | Count | Ticket

  /** The index picked at `p`, read as the given kind of draw. */
  function Chosen(ws: seq<int>, draw: Draw, p: int): (i: int) {
    if Sum(ws) <= 0 then 0 else
      match draw
      case Point => PickIndex(ws, p)
      case Count => PickIndex(ws, p % Sum(ws))
      case Ticket => PickIndex(ws, p % MODULUS % Sum(ws))
  }

  /** How many draws in [lo, lo + n) pick `i`. */
  function Tally(ws: seq<int>, draw: Draw, i: int, lo: int, n: nat): (c: nat) {
    if n == 0 then 0
    else Tally(ws, draw, i, lo, n - 1) + if Chosen(ws, draw, lo + n - 1) == i then 1 else 0
  }

  lemma {:induction false} TallySame(ws: seq<int>, d: Draw, i: int, lo: int,
                                     ws': seq<int>, d': Draw, i': int, lo': int, n: nat)
    requires forall p :: lo <= p < lo + n ==>
               (Chosen(ws, d, p) == i <==> Chosen(ws', d', p - lo + lo') == i')
    ensures Tally(ws, d, i, lo, n) == Tally(ws', d', i', lo', n)
  {
    hide Chosen;
    if n > 0 {
      TallySame(ws, d, i, lo, ws', d', i', lo', n - 1);
      var p := lo + n - 1;
      assert Chosen(ws, d, p) == i <==> Chosen(ws', d', p - lo + lo') == i';
      assert p - lo + lo' == lo' + n - 1;
    }
  }

  lemma {:induction false} TallySplit(ws: seq<int>, d: Draw, i: int, lo: int, n: nat, m: nat)
    ensures Tally(ws, d, i, lo, n + m) == Tally(ws, d, i, lo, n) + Tally(ws, d, i, lo + n, m)
  {
    hide Chosen;
    if m > 0 {
      TallySplit(ws, d, i, lo, n, m - 1);
      assert lo + (n + m) - 1 == lo + n + m - 1;
    }
  }

  lemma {:induction false} TallyConstant(ws: seq<int>, d: Draw, i: int, lo: int, n: nat, hit: bool)
    requires forall p :: lo <= p < lo + n ==> (Chosen(ws, d, p) == i <==> hit)
    ensures Tally(ws, d, i, lo, n) == if hit then n else 0
  {
    hide Chosen;
    if n > 0 {
      TallyConstant(ws, d, i, lo, n - 1, hit);
      assert Chosen(ws, d, lo + n - 1) == i <==> hit;
    }
  }

  lemma TallyHead(ws: seq<int>, d: Draw, i: int, lo: int, n: nat)
    requires n > 0
    ensures Tally(ws, d, i, lo, n) == (if Chosen(ws, d, lo) == i then 1 else 0) + Tally(ws, d, i, lo + 1, n - 1)
  {
    hide Chosen;
    TallySplit(ws, d, i, lo, 1, n - 1);
    assert Tally(ws, d, i, lo, 1) == Tally(ws, d, i, lo, 0) + if Chosen(ws, d, lo + 1 - 1) == i then 1 else 0;
  }

  lemma TallyTwice(ws: seq<int>, d: Draw, i: int, lo: int, n: nat, p1: int, p2: int)
    requires lo <= p1 < p2 < lo + n && Chosen(ws, d, p1) == i && Chosen(ws, d, p2) == i
    ensures Tally(ws, d, i, lo, n) >= 2
  {
    hide Chosen;
    TallySplit(ws, d, i, lo, p1 - lo, n - (p1 - lo));
    TallySplit(ws, d, i, p1, p2 - p1, n - (p2 - lo));
    TallyHead(ws, d, i, p1, p2 - p1);
    TallyHead(ws, d, i, p2, n - (p2 - lo));
  }

  // One pass over the points.

  lemma {:induction false} SumAtLeast(ws: seq<int>)
    requires Positive(ws)
    ensures Sum(ws) >= |ws|
  {
    if ws != [] {
      SumAtLeast(ws[1..]);
    }
  }

  /** Each index is picked by exactly its weight in points. */
  lemma {:induction false} PointsPerIndex(ws: seq<int>, i: nat)
    requires Positive(ws) && i < |ws|
    ensures Sum(ws) >= 1 && Tally(ws, Point, i, 0, Sum(ws)) == ws[i]
  {
    var rest := ws[1..];
    SumAtLeast(rest);
    SumAtLeast(ws);
    var w := Sum(rest);
    TallySplit(ws, Point, i, 0, ws[0], w);
    TallyConstant(ws, Point, i, 0, ws[0], i == 0);
    if i == 0 {
      TallyConstant(ws, Point, i, ws[0], w, false);
    } else {
      PointsPerIndex(rest, i - 1);
      TallySame(ws, Point, i, ws[0], rest, Point, i - 1, 0, w);
    }
  }

  // Remainders.

  lemma PeriodShift(a: int, m: int)
    requires m > 0
    ensures (a + m) % m == a % m
  {
    assert a == a / m * m + a % m;
    assert (a / m + 1) * m == a / m * m + m;
    DivModUnique(a + m, m, a / m + 1, a % m);
  }

  /** When `w` divides 2^32, the wrap of the counter does not show in its residues. */
  lemma WrapInvisible(t: nat, w: nat)
    requires w > 0 && MODULUS % w == 0
    ensures t % MODULUS % w == t % w
  {
    var q, r, k := t / MODULUS, t % MODULUS, MODULUS / w;
    assert MODULUS == k * w;
    var q', r' := r / w, r % w;
    assert r == q' * w + r';
    assert q * (k * w) == q * k * w;
    assert (q * k + q') * w == q * k * w + q' * w;
    DivModUnique(t, w, q * k + q', r');
  }

  lemma BeforeWrap(from: nat, t: nat)
    requires from <= t && from % MODULUS + (t - from) < MODULUS
    ensures t % MODULUS == from % MODULUS + (t - from)
  {
  }

  lemma AfterWrap(from: nat, t: nat)
    requires from <= t && MODULUS <= from % MODULUS + (t - from) < 2 * MODULUS
    ensures t % MODULUS == from % MODULUS + (t - from) - MODULUS
  {
  }

  // Windows.

  /** Any window as long as the total weight sees every point once. */
  lemma {:induction false} WindowIsPass(ws: seq<int>, i: int, a: nat)
    requires Sum(ws) > 0
    ensures Tally(ws, Count, i, a, Sum(ws)) == Tally(ws, Point, i, 0, Sum(ws))
    decreases a
  {
    var w := Sum(ws);
    if a == 0 {
      forall p | 0 <= p < w ensures Chosen(ws, Count, p) == Chosen(ws, Point, p) {
        DivModUnique(p, w, 0, p);
      }
      TallySame(ws, Count, i, 0, ws, Point, i, 0, w);
    } else {
      WindowIsPass(ws, i, a - 1);
      TallyHead(ws, Count, i, a - 1, w);
      TallySplit(ws, Count, i, a, w - 1, 1);
      TallyHead(ws, Count, i, a + (w - 1), 1);
      PeriodShift(a - 1, w);
      assert a + (w - 1) == a - 1 + w;
    }
  }

  /** The window does not pass the wrap of the counter, or the wrap does not show. */
  predicate Regular(total: nat, from: nat)
    requires total > 0
  {
    from % MODULUS + total <= MODULUS || MODULUS % total == 0
  }

  /**
    Over any regular window of tickets as long as the total weight, each healthy
    backend is picked exactly its weight times.
   */
  lemma ExactlyFair(ws: seq<int>, i: nat, from: nat)
    requires Positive(ws) && i < |ws| && Sum(ws) > 0 && Regular(Sum(ws), from)
    ensures Tally(ws, Ticket, i, from, Sum(ws)) == ws[i]
  {
    var base := TicketsAsCounts(ws, i, from);
    WindowIsPass(ws, i, base);
    PointsPerIndex(ws, i);
  }

  /** The tickets of a regular window pick like consecutive counts that do not wrap. */
  lemma TicketsAsCounts(ws: seq<int>, i: nat, from: nat) returns (base: nat)
    requires Sum(ws) > 0 && Regular(Sum(ws), from)
    ensures Tally(ws, Ticket, i, from, Sum(ws)) == Tally(ws, Count, i, base, Sum(ws))
  {
    var w := Sum(ws);
    if MODULUS % w == 0 {
      base := from;
      forall t | from <= t < from + w ensures Chosen(ws, Ticket, t) == Chosen(ws, Count, t - from + base) {
        WrapInvisible(t, w);
      }
    } else {
      base := from % MODULUS;
      forall t | from <= t < from + w ensures Chosen(ws, Ticket, t) == Chosen(ws, Count, t - from + base) {
        BeforeWrap(from, t);
      }
    }
    TallySame(ws, Ticket, i, from, ws, Count, i, base, w);
  }

  function Ones(n: nat): (ws: seq<int>)
    ensures |ws| == n && forall i :: 0 <= i < n ==> ws[i] == 1
  {
    if n == 0 then [] else [1] + Ones(n - 1)
  }

  lemma {:induction false} OnesSum(n: nat)
    ensures Sum(Ones(n)) == n
  {
    if n > 0 {
      OnesSum(n - 1);
      assert Ones(n)[1..] == Ones(n - 1);
    }
  }

  lemma {:induction false} OnesPick(n: nat, p: int)
    requires 0 <= p < n
    ensures PickIndex(Ones(n), p) == p
  {
    assert Ones(n)[1..] == Ones(n - 1);
    if p > 0 {
      OnesPick(n - 1, p - 1);
    }
  }

  /** The residue of a ticket `j` places before the wrap, 2^32 being q * w + r. */
  lemma ResidueBefore(w: nat, q: nat, r: nat, j: nat)
    requires w > 0 && MODULUS == q * w + r && j <= r < w
    ensures (MODULUS - j) % w == r - j
  {
    DivModUnique(MODULUS - j, w, q, r - j);
  }

  /** A window across a visible wrap draws two tickets of one residue. */
  lemma WrapRepeats(w: nat, from: nat) returns (t1: nat, t2: nat)
    requires w > 0 && !Regular(w, from)
    ensures from <= t1 < t2 < from + w && t1 % MODULUS % w == t2 % MODULUS % w
  {
    var base, r := from % MODULUS, MODULUS % w;
    var k := MODULUS - base;
    if r <= k {
      t1, t2 := from + k - r, from + k;
      ResidueBefore(w, MODULUS / w, r, r);
    } else {
      t1, t2 := from, from + r;
      ResidueBefore(w, MODULUS / w, r, k);
    }
    BeforeWrap(from, t1);
    AfterWrap(from, t2);
    DivModUnique(t2 % MODULUS, w, 0, t2 % MODULUS);
  }

  /**
    Weighted round robin is exactly fair, for every weighting of total `w`, over
    the window that starts with ticket `from`, if and only if the window does
    not pass the wrap of the 32-bit counter or `w` divides 2^32.
   */
  lemma FairIff(w: nat, from: nat)
    requires w > 0
    ensures (forall ws, i :: Positive(ws) && Sum(ws) == w && 0 <= i < |ws| ==>
               Tally(ws, Ticket, i, from, w) == ws[i])
            <==> Regular(w, from)
  {
    if Regular(w, from) {
      forall ws, i | Positive(ws) && Sum(ws) == w && 0 <= i < |ws|
        ensures Tally(ws, Ticket, i, from, w) == ws[i]
      {
        ExactlyFair(ws, i, from);
      }
    } else {
      var t1, t2 := WrapRepeats(w, from);
      var ws := Ones(w);
      OnesSum(w);
      var i := t1 % MODULUS % w;
      OnesPick(w, i);
      TallyTwice(ws, Ticket, i, from, w, t1, t2);
      assert Positive(ws) && Tally(ws, Ticket, i, from, w) != ws[i];
    }
  }

  /** Round robin is weighted round robin with unit weights. */
  lemma RoundRobinIsUnitWeights(n: nat, t: nat)
    requires n > 0
    ensures Chosen(Ones(n), Ticket, t) == t % MODULUS % n
  {
    OnesSum(n);
    OnesPick(n, t % MODULUS % n);
  }

  /** Three unit weights over the wrap: the first backend is picked twice, the last never. */
  lemma WrapExample()
    ensures Tally([1, 1, 1], Ticket, 0, MODULUS - 1, 3) == 2
    ensures Tally([1, 1, 1], Ticket, 2, MODULUS - 1, 3) == 0
  {
    var ws := [1, 1, 1];
    assert ws[1..] == [1, 1] && ws[1..][1..] == [1] && ws[1..][1..][1..] == [];
    assert Sum(ws) == 3;
    assert Chosen(ws, Ticket, MODULUS - 1) == 0 && Chosen(ws, Ticket, MODULUS) == 0;
    assert Chosen(ws, Ticket, MODULUS + 1) == PickIndex(ws, 1) == 1;
    assert Tally(ws, Ticket, 0, MODULUS - 1, 1) == 1 && Tally(ws, Ticket, 2, MODULUS - 1, 1) == 0;
    assert Tally(ws, Ticket, 0, MODULUS - 1, 2) == 2 && Tally(ws, Ticket, 2, MODULUS - 1, 2) == 0;
  }
}
