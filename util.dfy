/**
 * Integer helpers shared by the map model: C#'s truncating integer
 * division and remainder written out, the positive modulo `Util.Mod`,
 * powers of two for `<<`, and the 2D integer vector `Vector2I`.
 */
module Util {

  /** Godot's Vector2I: a pair of integer coordinates. */
  datatype Vec = Vec(x: int, y: int)

  function Add(a: Vec, b: Vec): Vec { Vec(a.x + b.x, a.y + b.y) }

  function Sub(a: Vec, b: Vec): Vec { Vec(a.x - b.x, a.y - b.y) }

  function Abs(a: int): nat { if a < 0 then -a else a }

  function Min(a: int, b: int): int { if a <= b then a else b }

  /**
   * C#'s integer `/`: the quotient is rounded toward zero, so for a
   * positive divisor `b * q` lies at or below a non-negative dividend and
   * at or above a negative one, less than `b` away.
   */
  function TruncDiv(a: int, b: int): (q: int)
    requires b != 0
    ensures a >= 0 && b > 0 ==> q == a / b
    ensures a >= 0 && b > 0 ==> b * q <= a < b * q + b
    ensures a < 0 && b > 0 ==> b * q - b < a <= b * q
  {
    var q := Abs(a) / Abs(b);
    DivModSplit(Abs(a), Abs(b));
    if (a < 0) != (b < 0) then -q else q
  }

  /** C#'s `%`: the remainder takes the sign of the dividend. */
  function TruncRem(a: int, r: int): (m: int)
    requires r != 0
    ensures a == r * TruncDiv(a, r) + m
    ensures Abs(m) < Abs(r)
    ensures a >= 0 ==> m >= 0
    ensures a <= 0 ==> m <= 0
  {
    var m := Abs(a) % Abs(r);
    DivModSplit(Abs(a), Abs(r));
    if a < 0 then -m else m
  }

  lemma {:induction false} DivModSplit(a: nat, r: nat)
    requires r > 0
    ensures a == r * (a / r) + a % r
  {
  }

  /** Euclidean division is determined by its remainder bound. */
  lemma {:induction false} EuclidUnique(a: int, r: int, k: int, m: int)
    requires r > 0 && a == r * k + m && 0 <= m < r
    ensures a / r == k && a % r == m
  {
    var q, m' := a / r, a % r;
    assert r * q + m' == r * k + m;
    assert r * (q - k) == m - m';
    if q > k {
      MulAtLeast(r, q - k);
    } else if q < k {
      MulAtLeast(r, k - q);
    }
  }

  lemma {:induction false} MulAtLeast(r: int, d: int)
    requires r > 0 && d >= 1
    ensures r * d >= r
  {
  }

  /**
   * `Util.Mod`: the positive modulo. A negative dividend's truncating
   * remainder is shifted up by the base, except that an exact multiple
   * gives 0. For a positive base the result lies in [0, r) and equals
   * the Euclidean remainder, so it is congruent to `a` modulo `r`.
   */
  function Mod(a: int, r: int): (m: int)
    requires r != 0
    ensures r > 0 ==> 0 <= m < r
    ensures r > 0 ==> m == a % r
  {
    if a < 0 then
      var mod := TruncRem(a, r);
      if mod == 0 then
        (if r > 0 then EuclidUnique(a, r, TruncDiv(a, r), 0); 0 else 0)
      else if r > 0 then
        EuclidUnique(a, r, TruncDiv(a, r) - 1, r + mod);
        r + mod
      else
        r + mod
    else if r > 0 then
      EuclidUnique(a, r, TruncDiv(a, r), TruncRem(a, r));
      TruncRem(a, r)
    else
      TruncRem(a, r)
  }

  /** Values already in [0, r) come back unchanged. */
  lemma {:induction false} ModOfInRange(a: int, r: int)
    requires 0 <= a < r
    ensures Mod(a, r) == a
  {
    EuclidUnique(a, r, 0, a);
  }

  /** A negative exact multiple of the base maps to 0, not to the base. */
  lemma {:induction false} ModOfNegativeMultiple(k: int, r: int)
    requires r > 0 && k > 0
    ensures Mod(-k * r, r) == 0
  {
    EuclidUnique(-k * r, r, -k, 0);
  }

  /** The example of the source's comment: -3 becomes 2 modulo 5. */
  lemma {:induction false} ModExample()
    ensures Mod(-3, 5) == 2
  {
  }

  /**
   * The truncating remainder that `Mod` starts from is not a positive
   * modulo: for -3 and 5 it is -3, which lies outside [0, 5).
   */
  lemma {:induction false} TruncRemIsNotPositive()
    ensures TruncRem(-3, 5) == -3 && Mod(-3, 5) == 2
  {
  }

  /** Applying `Mod` twice is the same as once. */
  lemma {:induction false} ModIdempotent(a: int, r: int)
    requires r > 0
    ensures Mod(Mod(a, r), r) == Mod(a, r)
  {
    ModOfInRange(Mod(a, r), r);
  }

  /** Two dividends differing by a multiple of the base share their modulo. */
  lemma {:induction false} ModShift(a: int, k: int, r: int)
    requires r > 0
    ensures Mod(a + k * r, r) == Mod(a, r)
  {
    assert a == r * (a / r) + a % r;
    assert a + k * r == r * (a / r + k) + a % r;
    EuclidUnique(a + k * r, r, a / r + k, a % r);
  }

  /** 2^n, the factor that `<< n` multiplies by. */
  function Pow2(n: nat): (p: nat)
    ensures p >= 1
  {
    if n == 0 then 1 else 2 * Pow2(n - 1)
  }

  /** Halving a quotient is dividing by twice the divisor. */
  lemma {:induction false} HalfOfQuotient(a: nat, b: nat)
    requires b > 0
    ensures (a / b) / 2 == a / (2 * b)
  {
    var q := a / b;
    var q2 := q / 2;
    assert a == b * q + a % b;
    assert q == 2 * q2 + q % 2;
    assert a == (2 * b) * q2 + (b * (q % 2) + a % b);
    assert 0 <= b * (q % 2) <= b;
    EuclidUnique(a, 2 * b, q2, b * (q % 2) + a % b);
  }
}
