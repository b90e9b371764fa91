/** Integer facts the solver is not left to find, and Go's operators where they differ from Euclidean division. */
module Arithmetic {

  lemma MulMono(a: int, b: int, c: int)
    requires a <= b && c >= 0
    ensures a * c <= b * c
  {
  }

  lemma MulCommutes(a: int, b: int)
    ensures a * b == b * a
  {
  }

  lemma MulAssociates(a: int, b: int, c: int)
    ensures a * b * c == a * (b * c)
  {
  }

  lemma MulSwap(a: int, b: int, c: int, d: int)
    ensures a * b * (c * d) == a * c * (b * d)
    ensures c * d == d * c && b * d == d * b
  {
  }

  lemma MulCancel(a: int, b: int, c: int)
    requires a * c <= b * c && c > 0
    ensures a <= b
  {
    if b < a { MulMono(b + 1, a, c); }
  }

  /** A floor quotient is the largest q with q * d <= n. */
  lemma FloorIs(n: int, d: int, q: int)
    requires d > 0
    ensures n / d * d <= n
    ensures q * d <= n <==> q <= n / d
  {
    var f := n / d;
    assert f * d <= n < (f + 1) * d;
    if q <= f { MulMono(q, f, d); }
    if q > f { MulMono(f + 1, q, d); }
  }

  lemma DivideTwice(w: nat, p: nat)
    requires p > 0
    ensures w / (2 * p) == w / 2 / p
  {
    var q := w / 2 / p;
    FloorIs(w / 2, p, q);
    FloorIs(w / 2, p, q + 1);
    MulAssociates(q, 2, p);
    assert q * (2 * p) == 2 * (q * p) && (q + 1) * (2 * p) == 2 * ((q + 1) * p);
    FloorIs(w, 2 * p, q);
    FloorIs(w, 2 * p, q + 1);
  }

  lemma MulEqual(p: int, q: int, s: int)
    requires s != 0 && p * s == q * s
    ensures p == q
  {
    if s > 0 {
      MulCancel(p, q, s);
      MulCancel(q, p, s);
    } else {
      assert p * -s == -(p * s) && q * -s == -(q * s);
      MulCancel(p, q, -s);
      MulCancel(q, p, -s);
    }
  }

  /** `a / b`: truncates toward zero. */
  function Quo(a: int, b: int): int
    requires b != 0
  {
    if (a >= 0) == (b > 0) then Abs(a) / Abs(b) else -(Abs(a) / Abs(b))
  }

  /** `a % b`: takes the sign of `a`. */
  function Rem(a: int, b: int): int
    requires b != 0
  {
    a - Quo(a, b) * b
  }

  function Abs(a: int): nat {
    if a < 0 then -a else a
  }

  lemma QuoRange(a: int, b: int)
    requires b > 0
    ensures a >= 0 ==> 0 <= Rem(a, b) < b
    ensures a < 0 ==> -b < Rem(a, b) <= 0
  {
    var q, r := Abs(a) / b, Abs(a) % b;
    assert Abs(a) == q * b + r;
    assert -q * b == -(q * b);
  }

  /** Truncation toward zero brackets every exact multiple. */
  lemma QuoBrackets(a: int, b: int, c: int)
    requires b > 0
    ensures a <= c * b && a <= 0 ==> Quo(a, b) <= c
    ensures c * b <= a && a >= 0 ==> c <= Quo(a, b)
  {
    var q := Quo(a, b);
    QuoRange(a, b);
    if c < q { MulMono(c + 1, q, b); }
    if q < c { MulMono(q + 1, c, b); }
  }

  lemma MultipleOf(q: int, s: int)
    requires s > 0
    ensures q * s % s == 0 && q * s / s == q
  {
    FloorIs(q * s, s, q);
    MulCancel(q * s / s, q, s);
  }
}
