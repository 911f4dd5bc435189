/** Which pairs of remainders one number can have. */
module Congruence {
  import opened Common
  import opened Bytes

  function Gcd(a: nat, b: nat): (g: nat)
    ensures a > 0 || b > 0 ==> g > 0
    decreases b
  {
    if b == 0 then a else Gcd(b, a % b)
  }

  lemma MulDist3(x: int, y: int, z: int, d: int)
    ensures (x + y * z) * d == x * d + y * (z * d)
  {
    MulDist(x, -(y * z), d);
    MulAssoc(y, z, d);
  }

  /** Gcd divides both numbers. */
  lemma {:induction false} GcdDivides(a: nat, b: nat) returns (q: int, r: int)
    ensures a == q * Gcd(a, b) && b == r * Gcd(a, b)
    decreases b
  {
    if b == 0 {
      q, r := 1, 0;
    } else {
      var g := Gcd(a, b);
      var q', r' := GcdDivides(b, a % b);
      DivModFacts(a, b);
      MulDist3(r', a / b, q', g);
      q, r := r' + a / b * q', q';
    }
  }

  /** Gcd is a combination of both numbers. */
  lemma {:induction false} Bezout(a: nat, b: nat) returns (x: int, y: int)
    ensures x * a + y * b == Gcd(a, b)
    decreases b
  {
    if b == 0 {
      x, y := 1, 0;
    } else {
      var x', y' := Bezout(b, a % b);
      DivModFacts(a, b);
      var d := a / b;
      x, y := y', x' - y' * d;
      MulDist(x', y' * d, b);
      MulAssoc(y', d, b);
      MulSplit(y', a, d * b);
    }
  }

  lemma MulSplit(y: int, a: int, c: int)
    ensures y * (a - c) == y * a - y * c
  {}

  lemma {:induction false} Multiple(x: int, g: int) returns (t: int)
    requires g > 0 && x % g == 0
    ensures x == t * g
  {
    DivModFacts(x, g);
    t := x / g;
  }

  /** A number with remainders l modulo m and p modulo n exists if gcd(m, n) divides l - p. */
  lemma Meet(l: nat, p: nat, m: nat, n: nat) returns (v: nat)
    requires l < m && p < n && (l - p) % Gcd(m, n) == 0
    ensures v % m == l && v % n == p
  {
    var x, y := Bezout(m, n);
    var t := Multiple(l - p, Gcd(m, n));
    var u, w := x * t, y * t;
    Scaled(x, y, m, n, t);
    // so u * m + w * n == l - p, and both expressions below are the same number
    var k := Magnitude(w);
    var a, b := k * n - u, w + k * m;
    Shifted(k, m, n, u, w);
    v := p + b * n by { MulPos(k, m); MulPos(b, n); }
    DivModUnique(v, n, b, p);
    DivModUnique(v, m, a, l);
  }

  lemma Scaled(x: int, y: int, m: int, n: int, t: int)
    ensures x * t * m + y * t * n == t * (x * m + y * n)
  {
    MulAssoc(t, x, m);
    MulAssoc(t, y, n);
  }

  lemma Shifted(k: int, m: int, n: int, u: int, w: int)
    ensures (k * n - u) * m == k * n * m - u * m
    ensures (w + k * m) * n == w * n + k * n * m
  {
    MulDist(k * n, u, m);
    MulDist(w, k * m, n);
  }

  /** And only then. */
  lemma Meets(v: nat, m: nat, n: nat)
    requires m > 0 && n > 0
    ensures (v % m - v % n) % Gcd(m, n) == 0
  {
    var g := Gcd(m, n);
    var q, r := GcdDivides(m, n);
    DivModFacts(v, m);
    DivModFacts(v, n);
    var a, b := v / m, v / n;
    MulAssoc(a, q, g);
    MulAssoc(b, r, g);
    MulDist(b * r, a * q, g);
    DivModUnique(v % m - v % n, g, b * r - a * q, 0);
  }
}
