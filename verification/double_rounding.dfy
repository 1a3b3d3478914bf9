/**
 * IEEE-754 double arithmetic, just far enough to evaluate the two
 * double-precision expressions of the fallback estimate as the browser does:
 * `Math.floor(50 + Math.random() * 100)` and `Math.round(fallback * 0.7)`.
 * Every value involved is a dyadic rational m * 2^e; a double keeps a 53-bit
 * significand, and an exact sum or product is rounded to the nearest such
 * value, ties to an even significand.  Exponent range (overflow, subnormals)
 * is not modelled; none of the values here comes near it.
 */
module DoubleRounding {
  import opened JsValues
  import Fallback

  /** The non-negative number m * 2^e. */
  datatype Dyadic = Dyadic(m: nat, e: int)

  const SignificandBits: nat := 53

  lemma {:induction false} Pow2Monotone(a: nat, b: nat)
    requires a <= b
    ensures Pow(2, a) <= Pow(2, b)
    decreases b
  {
    if a < b {
      Pow2Monotone(a, b - 1);
    }
  }

  lemma {:induction false} Pow2Add(a: nat, b: nat)
    ensures Pow(2, a + b) == Pow(2, a) * Pow(2, b)
    decreases a
  {
    if a > 0 {
      Pow2Add(a - 1, b);
    }
  }

  /** The number of binary digits of `m`. */
  function BitLength(m: nat): (b: nat)
    ensures m == 0 <==> b == 0
    ensures m > 0 ==> Pow(2, b - 1) <= m < Pow(2, b)
  {
    if m == 0 then 0 else 1 + BitLength(m / 2)
  }

  /** The bit length is the only `b` with 2^(b-1) <= m < 2^b. */
  lemma BitLengthUnique(m: nat, b: nat)
    requires b >= 1 && Pow(2, b - 1) <= m < Pow(2, b)
    ensures BitLength(m) == b
  {
    var c := BitLength(m);
    if c < b {
      Pow2Monotone(c, b - 1);
    } else if c > b {
      Pow2Monotone(b, c - 1);
    }
  }

  /** `m / p` rounded to the nearest integer, ties to the even one. */
  function DivHalfEven(m: nat, p: nat): (q: nat)
    requires p >= 1
    ensures 2 * (if q * p >= m then q * p - m else m - q * p) <= p
    ensures 2 * (if q * p >= m then q * p - m else m - q * p) == p ==> q % 2 == 0
  {
    var q0, rem := m / p, m % p;
    assert q0 >= 0;
    var q: nat := if 2 * rem < p || (2 * rem == p && q0 % 2 == 0) then q0 else q0 + 1;
    HalfEvenChoice(m, p, q0, rem, q);
    q
  }

  /** The quotient `DivHalfEven` picks is within half of `p`, and even on a tie. */
  lemma HalfEvenChoice(m: nat, p: nat, q0: nat, rem: nat, q: nat)
    requires p >= 1 && q0 == m / p && rem == m % p
    requires q == if 2 * rem < p || (2 * rem == p && q0 % 2 == 0) then q0 else q0 + 1
    ensures 2 * (if q * p >= m then q * p - m else m - q * p) <= p
    ensures 2 * (if q * p >= m then q * p - m else m - q * p) == p ==> q % 2 == 0
  {
    if q == q0 {
      KeepQuotient(m, p, q0, rem);
    } else {
      BumpQuotient(m, p, q0, rem);
    }
  }

  /** Rounding `m / p` down leaves the remainder as the distance. */
  lemma KeepQuotient(m: nat, p: nat, q: nat, rem: nat)
    requires p >= 1 && q == m / p && rem == m % p
    ensures q * p <= m && m - q * p == rem
  {
  }

  /** Rounding `m / p` up leaves `p - rem` as the distance. */
  lemma BumpQuotient(m: nat, p: nat, q: nat, rem: nat)
    requires p >= 1 && q == m / p && rem == m % p
    ensures (q + 1) * p >= m && (q + 1) * p - m == p - rem
  {
    assert m == q * p + rem;
    assert (q + 1) * p == q * p + p;
  }

  /** Rounding `m / p` to `q` cannot exceed a bound `n` with m < n * p. */
  lemma QuotientBound(m: nat, p: nat, q: nat, n: nat)
    requires p >= 1 && m < n * p
    requires 2 * (if q * p >= m then q * p - m else m - q * p) <= p
    ensures q <= n
  {
    assert q * p < (n + 1) * p;
    MulCancel(q, n + 1, p);
  }

  lemma MulCancel(a: nat, b: nat, p: nat)
    requires p >= 1 && a * p < b * p
    ensures a < b
  {
  }

  /** The distance between `m * 2^k` and `n`. */
  function Gap(m: nat, k: nat, n: nat): (g: nat)
  {
    var v := m * Pow(2, k);
    if v >= n then v - n else n - v
  }

  /**
   * `d` is `x` rounded to a 53-bit significand: it is at most half a unit of
   * its last place away from `x`, and on a tie its significand is even.
   */
  predicate RoundsTo(x: Dyadic, d: Dyadic)
  {
    && d.e >= x.e
    && d.m <= Pow(2, SignificandBits)
    && 2 * Gap(d.m, d.e - x.e, x.m) <= Pow(2, d.e - x.e)
    && (2 * Gap(d.m, d.e - x.e, x.m) == Pow(2, d.e - x.e) ==> d.m % 2 == 0)
  }

  /** How many low bits of `m` a double cannot keep. */
  function Excess(m: nat): (k: nat)
  {
    var b := BitLength(m);
    if b <= SignificandBits then 0 else b - SignificandBits
  }

  /**
   * `d` is the double nearest to `x`: it rounds `x` and its last place is the
   * one a 53-bit significand of `x` ends at.
   */
  predicate NearestDouble(x: Dyadic, d: Dyadic)
  {
    RoundsTo(x, d) && d.e == x.e + Excess(x.m)
  }

  /**
   * The nearest value with a 53-bit significand, dropping low bits and
   * rounding half to even; its last place is the one the 53rd significant bit
   * of `x` occupies.
   */
  function RoundToDouble(x: Dyadic): (d: Dyadic)
    ensures RoundsTo(x, d)
    ensures d.e == x.e + Excess(x.m)
  {
    var b := BitLength(x.m);
    if b <= SignificandBits then
      ShortIsExact(x, b);
      x
    else
      var s := b - SignificandBits;
      var q := DivHalfEven(x.m, Pow(2, s));
      CutIsRounding(x, b, s);
      Dyadic(q, x.e + s)
  }

  lemma ShortIsExact(x: Dyadic, b: nat)
    requires b == BitLength(x.m) && b <= SignificandBits
    ensures RoundsTo(x, x)
  {
    if x.m > 0 {
      Pow2Monotone(b, SignificandBits);
    }
    assert Gap(x.m, 0, x.m) == 0;
  }

  lemma CutIsRounding(x: Dyadic, b: nat, s: nat)
    requires b == BitLength(x.m) && b > SignificandBits && s == b - SignificandBits
    ensures RoundsTo(x, Dyadic(DivHalfEven(x.m, Pow(2, s)), x.e + s))
  {
    var p := Pow(2, s);
    var q := DivHalfEven(x.m, p);
    var top := Pow(2, SignificandBits);
    assert x.m < Pow(2, b);
    Pow2Add(SignificandBits, s);
    assert x.m < top * p;
    QuotientBound(x.m, p, q, top);
    GapIsDistance(q, s, x.m, p);
  }

  lemma GapIsDistance(q: nat, s: nat, m: nat, p: nat)
    requires p == Pow(2, s)
    ensures Gap(q, s, m) == if q * p >= m then q * p - m else m - q * p
  {
  }

  /** There is only one nearest double: two roundings to the same last place agree. */
  lemma NearestUnique(x: Dyadic, d: Dyadic, d': Dyadic)
    requires NearestDouble(x, d) && NearestDouble(x, d')
    ensures d == d'
  {
    var k: nat := d.e - x.e;
    var p := Pow(2, k);
    GapIsDistance(d.m, k, x.m, p);
    GapIsDistance(d'.m, k, x.m, p);
    if d.m <= d'.m {
      HalfWayUnique(x.m, p, d.m, d'.m);
    } else {
      HalfWayUnique(x.m, p, d'.m, d.m);
    }
  }

  /** Every double nearest to `x` is `d`. */
  lemma NearestIsUnique(x: Dyadic, d: Dyadic)
    requires NearestDouble(x, d)
    ensures forall d' :: NearestDouble(x, d') ==> d' == d
  {
    forall d' | NearestDouble(x, d') ensures d' == d {
      NearestUnique(x, d', d);
    }
  }

  /**
   * Two multiples `a * p <= b * p` both within half of `p` of `m`, each even
   * when exactly half away, are the same multiple.
   */
  lemma HalfWayUnique(m: nat, p: nat, a: nat, b: nat)
    requires p >= 1 && a <= b
    requires 2 * (if a * p >= m then a * p - m else m - a * p) <= p
    requires 2 * (if a * p >= m then a * p - m else m - a * p) == p ==> a % 2 == 0
    requires 2 * (if b * p >= m then b * p - m else m - b * p) <= p
    requires 2 * (if b * p >= m then b * p - m else m - b * p) == p ==> b % 2 == 0
    ensures a == b
  {
    MultiplesApart(p, a, b);
  }

  /** Multiples of `p` that are one or two steps apart are at least `p` or `2 * p` apart. */
  lemma MultiplesApart(p: nat, a: nat, b: nat)
    requires p >= 1 && a <= b
    ensures b * p - a * p == (b - a) * p
    ensures b - a >= 1 ==> b * p - a * p >= p
    ensures b - a >= 2 ==> b * p - a * p >= 2 * p
  {
    var c := b - a;
    assert b * p == a * p + c * p;
    if c >= 1 {
      assert c * p == p + (c - 1) * p;
    }
    if c >= 2 {
      assert c * p == 2 * p + (c - 2) * p;
    }
  }

  /** The exact sum, with both operands brought to the smaller exponent. */
  function ExactAdd(a: Dyadic, b: Dyadic): (s: Dyadic)
  {
    var e := if a.e <= b.e then a.e else b.e;
    var ma: nat := Scaled(a.m, a.e - e);
    var mb: nat := Scaled(b.m, b.e - e);
    Dyadic(ma + mb, e)
  }

  /** `m * 2^k`. */
  function Scaled(m: nat, k: nat): (r: nat)
  {
    var p := Pow(2, k);
    assert m * p >= 0;
    m * p
  }

  /** Double addition `a + b`: the double nearest to the exact sum. */
  function Add(a: Dyadic, b: Dyadic): (r: Dyadic)
    ensures NearestDouble(ExactAdd(a, b), r)
  {
    RoundToDouble(ExactAdd(a, b))
  }

  /** Double multiplication `a * b`: the double nearest to the exact product. */
  function Mul(a: Dyadic, b: Dyadic): (r: Dyadic)
    ensures a.m * b.m >= 0 && NearestDouble(Dyadic(a.m * b.m, a.e + b.e), r)
  {
    assert a.m * b.m >= 0;
    RoundToDouble(Dyadic(a.m * b.m, a.e + b.e))
  }

  /** `m / 2^k`, rounded down. */
  function Shifted(m: nat, k: nat): (q: nat)
    ensures q * Pow(2, k) <= m < (q + 1) * Pow(2, k)
  {
    var p := Pow(2, k);
    assert m / p >= 0;
    KeepQuotient(m, p, m / p, m % p);
    BumpQuotient(m, p, m / p, m % p);
    m / p
  }

  /** `n` is the largest integer at most `x`. */
  predicate FloorIs(x: Dyadic, n: nat)
  {
    if x.e >= 0 then n == x.m * Pow(2, x.e)
    else n * Pow(2, -x.e) <= x.m < (n + 1) * Pow(2, -x.e)
  }

  /** `n` is the largest integer at most `x + 1/2`. */
  predicate RoundIs(x: Dyadic, n: nat)
  {
    if x.e >= 0 then n == x.m * Pow(2, x.e)
    else n * Pow(2, -x.e) <= x.m + Pow(2, -x.e - 1) < (n + 1) * Pow(2, -x.e)
  }

  /** `Math.floor` of a double. */
  function FloorOf(x: Dyadic): (n: nat)
    ensures FloorIs(x, n)
  {
    if x.e >= 0 then Scaled(x.m, x.e) else Shifted(x.m, -x.e)
  }

  /** `Math.round` of a double: the floor of `x + 1/2`, exactly. */
  function RoundHalfUp(x: Dyadic): (n: nat)
    ensures RoundIs(x, n)
  {
    if x.e >= 0 then Scaled(x.m, x.e) else Shifted(x.m + Pow(2, -x.e - 1), -x.e)
  }

  /** The double the literal `0.7` denotes: 3152519739159347 * 2^-52. */
  const PointSeven: Dyadic := Dyadic(3152519739159347, -52)

  lemma Pow2Ten()
    ensures Pow(2, 1) == 2 && Pow(2, 5) == 32 && Pow(2, 7) == 128 && Pow(2, 10) == 1024
  {
    assert Pow(2, 1) == 2;
    assert Pow(2, 3) == 8;
    assert Pow(2, 5) == 32;
    assert Pow(2, 7) == 128;
    assert Pow(2, 10) == 1024;
  }

  lemma Pow2Forty()
    ensures Pow(2, 40) == 1099511627776
  {
    Pow2Ten();
    Pow2Add(10, 10);
    Pow2Add(20, 20);
  }

  lemma Pow2FortyFive()
    ensures Pow(2, 45) == 35184372088832 && Pow(2, 46) == 70368744177664 && Pow(2, 47) == 140737488355328
    ensures Pow(2, 50) == 1125899906842624
  {
    Pow2Ten();
    Pow2Forty();
    assert Pow(2, 6) == 64;
    Pow2Add(40, 5);
    Pow2Add(40, 6);
    Pow2Add(40, 7);
    Pow2Add(40, 10);
  }

  lemma Pow2Fifty()
    ensures Pow(2, 51) == 2251799813685248 && Pow(2, 52) == 4503599627370496
    ensures Pow(2, 53) == 9007199254740992 && Pow(2, 54) == 18014398509481984
  {
    Pow2FortyFive();
    Pow2Add(50, 1);
    Pow2Add(50, 2);
    Pow2Add(50, 3);
    Pow2Add(50, 4);
  }

  lemma Pow2Sixty()
    ensures Pow(2, 57) == 144115188075855872 && Pow(2, 58) == 288230376151711744
    ensures Pow(2, 59) == 576460752303423488 && Pow(2, 60) == 1152921504606846976
  {
    Pow2FortyFive();
    Pow2Ten();
    Pow2Add(50, 7);
    Pow2Add(50, 8);
    Pow2Add(50, 9);
    Pow2Add(50, 10);
  }

  /** The powers of two the concrete evaluations below need. */
  lemma Pow2Values()
    ensures Pow(2, 1) == 2 && Pow(2, 5) == 32 && Pow(2, 7) == 128
    ensures Pow(2, 45) == 35184372088832 && Pow(2, 46) == 70368744177664 && Pow(2, 47) == 140737488355328
    ensures Pow(2, 51) == 2251799813685248 && Pow(2, 52) == 4503599627370496
    ensures Pow(2, 53) == 9007199254740992 && Pow(2, 54) == 18014398509481984
    ensures Pow(2, 57) == 144115188075855872 && Pow(2, 58) == 288230376151711744
    ensures Pow(2, 59) == 576460752303423488 && Pow(2, 60) == 1152921504606846976
  {
    Pow2Ten();
    Pow2FortyFive();
    Pow2Fifty();
    Pow2Sixty();
  }

  /**
   * `PointSeven` has a 52-bit significand and lies below 7/10 by at most half
   * a unit in the last place of a double in [1/2, 1), that is by 2^-54 at most.
   */
  lemma PointSevenIsNearest()
    ensures BitLength(PointSeven.m) == 52
    ensures var gap := 7 * Pow(2, 52) - 10 * PointSeven.m; 0 <= gap && 2 * gap <= 5
  {
    Pow2Values();
    BitLengthUnique(PointSeven.m, 52);
  }

  /**
   * `Math.round(f * 0.7)` evaluated in doubles, for a fallback demand `f`: the
   * rounding, halves up, of the double nearest to `f` times the double 0.7.
   */
  function TaxisAsWritten(f: nat): (n: nat)
    ensures forall p :: NearestDouble(Dyadic(f * PointSeven.m, PointSeven.e), p) ==> RoundIs(p, n)
  {
    var p := Mul(Dyadic(f, 0), PointSeven);
    NearestIsUnique(Dyadic(f * PointSeven.m, PointSeven.e), p);
    RoundHalfUp(p)
  }

  /**
   * For a fallback of 85 the double product 85 * 0.7 lies just below 59.5, so
   * the page shows 59 taxis where the nearest integer to 0.7 * 85 = 59.5,
   * halves up, is 60.
   */
  lemma TaxisAsWrittenAt85()
    ensures TaxisAsWritten(85) == 59
    ensures Fallback.Taxis(85) == 60
  {
    Pow2Values();
    var x := Dyadic(85 * 3152519739159347, -52);
    assert x.m == 267964177828544495;
    BitLengthUnique(x.m, 58);
    assert DivHalfEven(x.m, 32) == 8373880557142015;
    assert Mul(Dyadic(85, 0), PointSeven) == Dyadic(8373880557142015, -47);
  }

  /**
   * `Math.floor(50 + Math.random() * 100)` evaluated in doubles, for a random
   * value drawn as `k * 2^-53` (every such value is a double).
   */
  function DemandAsWritten(k: nat): (n: nat)
    ensures forall p, s :: NearestDouble(Dyadic(k * 100, -53), p) && NearestDouble(ExactAdd(Dyadic(50, 0), p), s)
                           ==> FloorIs(s, n)
  {
    var p := Mul(Dyadic(k, -53), Dyadic(100, 0));
    var s := Add(Dyadic(50, 0), p);
    NearestIsUnique(Dyadic(k * 100, -53), p);
    NearestIsUnique(ExactAdd(Dyadic(50, 0), p), s);
    FloorOf(s)
  }

  /**
   * For the largest random value below 1, 1 - 2^-53, the product rounds to
   * 100 - 2^-46 and the sum 150 - 2^-46 lies exactly halfway between two
   * doubles; the tie goes to 150, outside the range 50..149 that the exact
   * evaluation `Fallback.Draw` keeps for every draw.
   */
  lemma DemandAsWrittenAtTop()
    ensures Pow(2, 53) - 1 == 9007199254740991
    ensures DemandAsWritten(9007199254740991) == 150
  {
    Pow2Values();
    var p := ProductAtTop();
    var s := SumAtTop(p);
    assert FloorOf(s) == 150;
  }

  /** (1 - 2^-53) * 100 rounds to 100 - 2^-46. */
  lemma ProductAtTop() returns (p: Dyadic)
    ensures p == Dyadic(7036874417766399, -46)
    ensures Mul(Dyadic(9007199254740991, -53), Dyadic(100, 0)) == p
  {
    Pow2Values();
    var x := Dyadic(900719925474099100, -53);
    BitLengthUnique(x.m, 60);
    assert DivHalfEven(x.m, 128) == 7036874417766399;
    p := Dyadic(7036874417766399, -46);
  }

  /** 50 + (100 - 2^-46) lies halfway between two doubles and rounds to the even one, 150. */
  lemma SumAtTop(p: Dyadic) returns (s: Dyadic)
    requires p == Dyadic(7036874417766399, -46)
    ensures s == Dyadic(5277655813324800, -45)
    ensures Add(Dyadic(50, 0), p) == s
  {
    Pow2Values();
    var x := ExactAdd(Dyadic(50, 0), p);
    assert x == Dyadic(10555311626649599, -46);
    BitLengthUnique(x.m, 54);
    assert DivHalfEven(x.m, 2) == 5277655813324800;
    s := Dyadic(5277655813324800, -45);
  }
}
