/** Scaling an on-chain token amount by the token's decimals with a fixed division precision. */
module TransferAmount {

  function Pow10(n: nat): nat {
    if n == 0 then 1 else 10 * Pow10(n - 1)
  }

  function Abs(x: int): nat {
    if x < 0 then -x else x
  }

  /** Division that truncates toward zero. */
  function Quo(n: int, m: nat): int
    requires m > 0
  {
    if n >= 0 then n / m else -((-n) / m)
  }

  /** `DivRound` of the decimal library: truncate, then step away from zero if the remainder is at
      least half the divisor. */
  function DivRound(n: int, m: nat): int
    requires m > 0
  {
    var q := Quo(n, m);
    var r := n - q * m;
    if 2 * Abs(r) < m then q else if n < 0 then q - 1 else q + 1
  }

  /** The scaled value in units of 10^-precision: raw / 10^decimals. */
  function Scale(raw: int, decimals: nat, precision: nat): int
  {
    PowPositive(decimals);
    DivRound(raw * Pow10(precision), Pow10(decimals))
  }

  lemma {:induction false} PowPositive(n: nat)
    ensures Pow10(n) > 0
  {
    if n != 0 { PowPositive(n - 1); }
  }

  lemma {:induction false} PowAdd(a: nat, b: nat)
    ensures Pow10(a + b) == Pow10(a) * Pow10(b)
  {
    if a != 0 { PowAdd(a - 1, b); }
  }

  // ----- Rounding -----

  lemma QuoBounds(n: int, m: nat)
    requires m > 0
    ensures Abs(n - Quo(n, m) * m) < m
    ensures n >= 0 ==> n - Quo(n, m) * m >= 0
    ensures n <= 0 ==> n - Quo(n, m) * m <= 0
  {
    if n >= 0 {
      assert n == n / m * m + n % m;
    } else {
      assert -n == (-n) / m * m + (-n) % m;
      assert -((-n) / m) * m == -((-n) / m * m);
    }
  }

  /** The result is a nearest multiple. */
  lemma DivRoundNearest(n: int, m: nat)
    requires m > 0
    ensures 2 * Abs(DivRound(n, m) * m - n) <= m
  {
    QuoBounds(n, m);
    var q := Quo(n, m);
    assert (q + 1) * m == q * m + m;
    assert (q - 1) * m == q * m - m;
  }

  /** A value in the middle between two multiples goes to the one further from zero. */
  lemma DivRoundTies(n: int, m: nat, k: int)
    requires m > 0 && 2 * n == (2 * k + 1) * m
    ensures DivRound(n, m) == if n >= 0 then k + 1 else k
  {
    QuoBounds(n, m);
    var q := Quo(n, m);
    assert (2 * k + 1) * m == 2 * (k * m) + m;
    assert (q - k) * m == q * m - k * m;
    assert (q - k - 1) * m == q * m - k * m - m;
    hide Quo;
    MulGrows(q - k, m);
    MulGrows(q - k - 1, m);
  }

  lemma MulGrows(d: int, m: nat)
    ensures d >= 1 ==> d * m >= m
    ensures d <= -1 ==> d * m <= 0 - m
  {
    if d >= 1 { assert (d - 1) * m >= 0; }
    if d <= -1 { assert (-d - 1) * m >= 0; }
  }

  lemma Below(d: int, m: nat)
    requires m > 0 && d * m < m
    ensures d <= 0
  {
    MulGrows(d, m);
  }

  lemma Closest(q: int, q': int, n: int, n': int, m: nat)
    requires 2 * Abs(q * m - n) <= m && 2 * Abs(q' * m - n') <= m && n < n'
    ensures q <= q'
  {
    assert (q - q') * m == q * m - q' * m;
    MulGrows(q - q', m);
  }

  lemma DivRoundMonotone(n: int, n': int, m: nat)
    requires m > 0 && n <= n'
    ensures DivRound(n, m) <= DivRound(n', m)
  {
    if n < n' {
      DivRoundNearest(n, m);
      DivRoundNearest(n', m);
      Closest(DivRound(n, m), DivRound(n', m), n, n', m);
    }
  }

  lemma DivRoundExact(n: int, m: nat)
    requires m > 0
    ensures DivRound(n, m) * m == n <==> n % m == 0
  {
    if n % m == 0 {
      var k := n / m;
      assert n == k * m;
      DivRoundNearest(n, m);
      var q := DivRound(n, m);
      assert (q - k) * m == q * m - n;
      assert (k - q) * m == n - q * m;
      Below(q - k, m);
      Below(k - q, m);
    } else {
      MultipleHasNoRemainder(DivRound(n, m), m);
    }
  }

  lemma MultipleHasNoRemainder(k: int, m: nat)
    requires m > 0
    ensures k * m % m == 0
  {
    var r := k * m % m;
    var d := k - k * m / m;
    assert r == k * m - k * m / m * m == d * m;
    MulGrows(d, m);
  }

  // ----- The scaled transfer -----

  /** Within half a unit of the last place: 2 * |scaled * 10^d - raw * 10^P| <= 10^d. */
  lemma ScaleNearest(raw: int, d: nat, p: nat)
    ensures 2 * Abs(Scale(raw, d, p) * Pow10(d) - raw * Pow10(p)) <= Pow10(d)
  {
    PowPositive(d);
    DivRoundNearest(raw * Pow10(p), Pow10(d));
  }

  lemma ScaleMonotone(raw: int, raw': int, d: nat, p: nat)
    requires raw <= raw'
    ensures Scale(raw, d, p) <= Scale(raw', d, p)
  {
    PowPositive(d);
    PowPositive(p);
    assert raw * Pow10(p) <= raw' * Pow10(p);
    DivRoundMonotone(raw * Pow10(p), raw' * Pow10(p), Pow10(d));
  }

  /** Nothing is lost exactly if the token has no more decimals than the division keeps, or the amount
      is a multiple of what is cut off. */
  lemma ScaleExact(raw: int, d: nat, p: nat)
    ensures d <= p || Pow10(d - p) > 0
    ensures Scale(raw, d, p) * Pow10(d) == raw * Pow10(p) <==> d <= p || raw % Pow10(d - p) == 0
  {
    PowPositive(d);
    DivRoundExact(raw * Pow10(p), Pow10(d));
    if d <= p { WideIsExact(raw, d, p); } else { NarrowIsExact(raw, d, p); }
    hide Pow10, DivRound;
  }

  lemma WideIsExact(raw: int, d: nat, p: nat)
    requires d <= p
    ensures Pow10(d) > 0 && raw * Pow10(p) % Pow10(d) == 0
  {
    PowPositive(d);
    PowAdd(p - d, d);
    var a, b := Pow10(p - d), Pow10(d);
    hide Pow10;
    FactorDivides(raw, a, b);
  }

  lemma FactorDivides(raw: int, a: nat, b: nat)
    requires b > 0
    ensures raw * (a * b) % b == 0
  {
    assert raw * (a * b) == (raw * a) * b;
    MultipleHasNoRemainder(raw * a, b);
  }

  lemma NarrowIsExact(raw: int, d: nat, p: nat)
    requires p < d
    ensures Pow10(d) > 0 && Pow10(d - p) > 0
    ensures raw * Pow10(p) % Pow10(d) == 0 <==> raw % Pow10(d - p) == 0
  {
    PowPositive(d);
    PowPositive(p);
    PowPositive(d - p);
    PowAdd(d - p, p);
    hide Pow10;
    CancelFactor(raw, Pow10(p), Pow10(d - p));
  }

  lemma CancelFactor(raw: int, a: nat, b: nat)
    requires a > 0 && b > 0
    ensures b * a > 0
    ensures raw * a % (b * a) == 0 <==> raw % b == 0
  {
    assert b * a > 0;
    if raw % b == 0 {
      var k := raw / b;
      assert raw == k * b;
      assert raw * a == k * (b * a);
      MultipleHasNoRemainder(k, b * a);
    }
    if raw * a % (b * a) == 0 {
      var k := raw * a / (b * a);
      assert raw * a == k * (b * a) == k * b * a;
      SameFactor(raw, k * b, a);
      MultipleHasNoRemainder(k, b);
    }
  }

  lemma SameFactor(x: int, y: int, a: nat)
    requires a > 0 && x * a == y * a
    ensures x == y
  {
    assert (x - y) * a == 0;
    MulGrows(x - y, a);
  }

  function Sum(xs: seq<int>): int {
    if xs == [] then 0 else Sum(xs[..|xs| - 1]) + xs[|xs| - 1]
  }

  function ScaleAll(raws: seq<int>, d: nat, p: nat): seq<int> {
    seq(|raws|, i requires 0 <= i < |raws| => Scale(raws[i], d, p))
  }

  /** The error of a sum of transfers grows by at most half a unit per transfer. */
  lemma {:induction false} SumError(raws: seq<int>, d: nat, p: nat)
    ensures 2 * Abs(Sum(ScaleAll(raws, d, p)) * Pow10(d) - Sum(raws) * Pow10(p)) <= |raws| * Pow10(d)
  {
    if raws != [] {
      var n := |raws| - 1;
      var front := raws[..n];
      SumError(front, d, p);
      ScaleNearest(raws[n], d, p);
      assert ScaleAll(raws, d, p)[..n] == ScaleAll(front, d, p);
      AddErrors(Sum(ScaleAll(front, d, p)), Scale(raws[n], d, p), Sum(front), raws[n], Pow10(d), Pow10(p), n);
      hide Scale, Pow10;
    }
  }

  lemma AddErrors(s: int, t: int, x: int, y: int, d: nat, p: nat, n: nat)
    requires 2 * Abs(s * d - x * p) <= n * d && 2 * Abs(t * d - y * p) <= d
    ensures 2 * Abs((s + t) * d - (x + y) * p) <= (n + 1) * d
  {
    assert (s + t) * d == s * d + t * d;
    assert (x + y) * p == x * p + y * p;
    assert (n + 1) * d == n * d + d;
  }

  /** The precision of the decimal library is 16: an 18-decimal token loses its smallest units. */
  lemma DustIsDropped()
    ensures Scale(49, 18, 16) == 0 && Scale(50, 18, 16) == 1 && Scale(-49, 18, 16) == 0 && Scale(-50, 18, 16) == -1
  {
    assert Pow10(4) == 10 * Pow10(3) == 100 * Pow10(2) == 10000;
    PowAdd(4, 4);
    PowAdd(8, 8);
    PowAdd(2, 16);
    assert Pow10(2) == 100;
    assert Pow10(16) == 10000000000000000 && Pow10(18) == 1000000000000000000;
  }
}
