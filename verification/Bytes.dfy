/** Bytes, bitwise operations on them, and byte strings read as big-endian numbers. */
module Bytes {

  type byte = b: int | 0 <= b < 256

  const MAX_INT32 := 0x7FFF_FFFF

  function Pow2(n: nat): (p: nat)
    ensures p >= 1
  {
    if n == 0 then 1 else 2 * Pow2(n - 1)
  }

  lemma {:induction false} Pow2Sum(a: nat, b: nat)
    ensures Pow2(a + b) == Pow2(a) * Pow2(b)
  {
    if a > 0 {
      Pow2Sum(a - 1, b);
    }
  }

  lemma Pow2Eight()
    ensures Pow2(1) == 2 && Pow2(2) == 4 && Pow2(3) == 8 && Pow2(4) == 16
    ensures Pow2(5) == 32 && Pow2(6) == 64 && Pow2(7) == 128 && Pow2(8) == 256
  {
    assert Pow2(3) == 8;
    assert Pow2(6) == 64;
  }

  /** Bitwise OR of the low `width` bits. */
  function OrBits(a: nat, b: nat, width: nat): nat {
    if width == 0 then 0
    else 2 * OrBits(a / 2, b / 2, width - 1) + if a % 2 == 1 || b % 2 == 1 then 1 else 0
  }

  /** Bitwise AND of the low `width` bits. */
  function AndBits(a: nat, b: nat, width: nat): nat {
    if width == 0 then 0
    else 2 * AndBits(a / 2, b / 2, width - 1) + if a % 2 == 1 && b % 2 == 1 then 1 else 0
  }

  lemma {:induction false} BitsBound(a: nat, b: nat, width: nat)
    ensures OrBits(a, b, width) < Pow2(width)
    ensures AndBits(a, b, width) < Pow2(width)
  {
    if width > 0 {
      BitsBound(a / 2, b / 2, width - 1);
    }
  }

  function Or(a: byte, b: byte): (c: byte) {
    BitsBound(a, b, 8); Pow2Eight();
    OrBits(a, b, 8)
  }

  function And(a: byte, b: byte): (c: byte) {
    BitsBound(a, b, 8); Pow2Eight();
    AndBits(a, b, 8)
  }

  function Not(a: byte): (c: byte) { 255 - a }

  /** `v` with its low `h` bits cleared. */
  function Floor(v: nat, h: nat): nat { if h == 0 then v else 2 * Floor(v / 2, h - 1) }

  /** Clearing the low bits rounds down to a multiple of a power of two. */
  lemma {:induction false} FloorIsMod(v: nat, h: nat)
    ensures Floor(v, h) == v - v % Pow2(h)
  {
    if h > 0 {
      FloorIsMod(v / 2, h - 1);
      HalveMod(v, Pow2(h - 1));
    }
  }

  lemma HalveMod(a: nat, m: nat)
    requires m > 0
    ensures a % (2 * m) == 2 * ((a / 2) % m) + a % 2
  {
    var q, r := (a / 2) / m, (a / 2) % m;
    assert a / 2 == q * m + r;
    assert q * (2 * m) == 2 * (q * m);
    DivModUnique(a, 2 * m, q, 2 * r + a % 2);
  }

  lemma DivModUnique(a: int, m: int, q: int, r: int)
    requires m > 0 && 0 <= r < m && a == q * m + r
    ensures a / m == q && a % m == r
  {
    var q', r' := a / m, a % m;
    assert a == q' * m + r';
    assert (q - q') * m == r' - r;
    MultipleIsFar(q - q', m);
  }

  lemma MultipleIsFar(k: int, m: int)
    requires m > 0
    ensures k == 0 || k * m >= m || k * m <= -m
  {
  }

  lemma {:induction false} FloorTwice(v: nat, h: nat)
    ensures Floor(Floor(v, h), h) == Floor(v, h)
  {
    if h > 0 {
      FloorTwice(v / 2, h - 1);
    }
  }

  /** Numbers with one floor are those within one block. */
  lemma {:induction false} SameFloor(v: nat, x: nat, h: nat)
    ensures Floor(x, h) == Floor(v, h) <==> Floor(v, h) <= x < Floor(v, h) + Pow2(h)
  {
    if h > 0 {
      SameFloor(v / 2, x / 2, h - 1);
    }
  }

  /** Bits above the cleared ones are kept. */
  lemma {:induction false} FloorAdd(x: nat, b: nat, h: nat)
    requires Floor(x, h) == x
    ensures Floor(x + b, h) == x + Floor(b, h)
  {
    if h > 0 {
      FloorAdd(x / 2, b / 2, h - 1);
    }
  }

  lemma {:induction false} FloorFewer(x: nat, h: nat, k: nat)
    requires k <= h && Floor(x, h) == x
    ensures Floor(x, k) == x
  {
    if k > 0 {
      FloorFewer(x / 2, h - 1, k - 1);
    }
  }

  /** OR with `j` low ones fills the low bits; AND with their complement clears them. */
  lemma {:induction false} LowBits(a: nat, j: nat, width: nat)
    requires j <= width && a < Pow2(width)
    ensures Pow2(j) <= Pow2(width)
    ensures OrBits(a, Pow2(j) - 1, width) == Floor(a, j) + Pow2(j) - 1
    ensures AndBits(a, Pow2(width) - Pow2(j), width) == Floor(a, j)
  {
    if width == 0 {
    } else if j == 0 {
      LowBits(a / 2, 0, width - 1);
      assert (Pow2(width) - 1) / 2 == Pow2(width - 1) - 1;
    } else {
      LowBits(a / 2, j - 1, width - 1);
      assert (Pow2(j) - 1) / 2 == Pow2(j - 1) - 1;
      assert (Pow2(width) - Pow2(j)) / 2 == Pow2(width - 1) - Pow2(j - 1);
    }
  }

  // Byte strings as numbers.

  /** The big-endian value of a byte string. */
  function Val(s: seq<byte>): (v: nat)
    decreases |s|
  {
    if |s| == 0 then 0 else Val(s[..|s| - 1]) * 256 + s[|s| - 1]
  }

  /** One more than the largest value of a byte string of length `n`. */
  function Size(n: nat): (p: nat)
    ensures p >= 1
  {
    if n == 0 then 1 else Size(n - 1) * 256
  }

  lemma {:induction false} ValBound(s: seq<byte>)
    ensures Val(s) < Size(|s|)
    decreases |s|
  {
    if |s| > 0 {
      ValBound(s[..|s| - 1]);
    }
  }

  lemma {:induction false} ValInjective(s: seq<byte>, t: seq<byte>)
    requires |s| == |t| && Val(s) == Val(t)
    ensures s == t
    decreases |s|
  {
    if |s| > 0 {
      var n := |s| - 1;
      ValInjective(s[..n], t[..n]);
      assert s == s[..n] + [s[n]] && t == t[..n] + [t[n]];
    }
  }

  /** The byte string of length `n` whose value is `v`. */
  function Encode(v: nat, n: nat): (s: seq<byte>)
    requires v < Size(n)
    ensures |s| == n && Val(s) == v
  {
    if n == 0 then [] else
      var s := Encode(v / 256, n - 1) + [v % 256];
      assert s[..n - 1] == Encode(v / 256, n - 1);
      s
  }

  lemma ValSnoc(s: seq<byte>, b: byte)
    ensures Val(s + [b]) == Val(s) * 256 + b
  {
    assert (s + [b])[..|s|] == s;
  }

  /** Splitting off the most significant byte. */
  lemma {:induction false} ValFront(b: byte, s: seq<byte>)
    ensures Val([b] + s) == b * Size(|s|) + Val(s)
    decreases |s|
  {
    if |s| == 0 {
      assert ([b] + s)[..0] == [];
      assert Val([b] + s) == Val([]) * 256 + b;
    } else {
      var n := |s| - 1;
      ValFront(b, s[..n]);
      assert ([b] + s)[..|s|] == [b] + s[..n];
      assert Val([b] + s) == Val([b] + s[..n]) * 256 + s[n];
    }
  }

  /** Splitting a byte string in two. */
  lemma {:induction false} ValConcat(s: seq<byte>, t: seq<byte>)
    ensures Val(s + t) == Val(s) * Size(|t|) + Val(t)
    decreases |t|
  {
    if |t| == 0 {
      assert s + t == s;
    } else {
      var n := |t| - 1;
      ValConcat(s, t[..n]);
      assert (s + t)[..|s| + n] == s + t[..n];
      assert Val(s) * Size(|t|) == Val(s) * Size(n) * 256;
    }
  }

  // Lexicographic comparison, the order of Go's bytes.Compare.

  function Compare(a: seq<byte>, b: seq<byte>): (c: int) {
    if |a| == 0 then (if |b| == 0 then 0 else -1)
    else if |b| == 0 then 1
    else if a[0] < b[0] then -1
    else if a[0] > b[0] then 1
    else Compare(a[1..], b[1..])
  }

  /** For strings of one length the lexicographic order is the numeric order. */
  lemma {:induction false} CompareIsNumeric(a: seq<byte>, b: seq<byte>)
    requires |a| == |b|
    ensures Compare(a, b) == if Val(a) < Val(b) then -1 else if Val(a) == Val(b) then 0 else 1
  {
    if |a| > 0 {
      var n := |a| - 1;
      CompareIsNumeric(a[1..], b[1..]);
      assert a == [a[0]] + a[1..] && b == [b[0]] + b[1..];
      ValFront(a[0], a[1..]);
      ValFront(b[0], b[1..]);
      ValBound(a[1..]);
      ValBound(b[1..]);
      LeadingDigit(a[0], b[0], Val(a[1..]), Val(b[1..]), Size(n));
      LeadingDigit(b[0], a[0], Val(b[1..]), Val(a[1..]), Size(n));
    }
  }

  lemma LeadingDigit(x: nat, y: nat, u: nat, v: nat, m: nat)
    requires u < m && v < m
    ensures x < y ==> x * m + u < y * m + v
  {
    if x < y {
      assert (x + 1) * m <= y * m;
    }
  }

  /** Across all lengths the lexicographic order is a total order. */
  lemma {:induction false} CompareReversed(a: seq<byte>, b: seq<byte>)
    ensures Compare(a, b) == -Compare(b, a)
    ensures Compare(a, b) == 0 <==> a == b
  {
    if |a| > 0 && |b| > 0 {
      CompareReversed(a[1..], b[1..]);
      assert a == [a[0]] + a[1..] && b == [b[0]] + b[1..];
    }
  }

  lemma {:induction false} CompareTransitive(a: seq<byte>, b: seq<byte>, c: seq<byte>)
    requires Compare(a, b) <= 0 && Compare(b, c) <= 0
    ensures Compare(a, c) <= 0
  {
    if |a| > 0 && |b| > 0 && |c| > 0 && a[0] == b[0] == c[0] {
      CompareTransitive(a[1..], b[1..], c[1..]);
    }
  }
}
