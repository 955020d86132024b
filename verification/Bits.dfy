/** Bitwise operations on natural numbers, and what they are on fields of bits. */
module Bits {
  function Pow2(n: nat): (r: nat)
    ensures r > 0
  {
    if n == 0 then 1 else 2 * Pow2(n - 1)
  }

  function Or(a: nat, b: nat): (r: nat)
    decreases a + b
  {
    if a == 0 && b == 0 then 0 else 2 * Or(a / 2, b / 2) + if a % 2 == 1 || b % 2 == 1 then 1 else 0
  }

  function And(a: nat, b: nat): (r: nat)
    decreases a + b
  {
    if a == 0 && b == 0 then 0 else 2 * And(a / 2, b / 2) + if a % 2 == 1 && b % 2 == 1 then 1 else 0
  }

  lemma {:induction false} PowAdd(m: nat, n: nat)
    ensures Pow2(m + n) == Pow2(m) * Pow2(n)
  {
    if m > 0 {
      PowAdd(m - 1, n);
      Product(2, Pow2(m - 1), Pow2(n));
    }
  }

  lemma Times(a: nat, b: nat, d: nat)
    requires a <= b
    ensures a * d <= b * d
  {
  }

  lemma Below(p: nat, q: nat, d: nat)
    requires p * d < (q + 1) * d
    ensures p <= q
  {
    if p > q { Times(q + 1, p, d); }
  }

  lemma Distribute(a: nat, b: nat, d: nat)
    ensures (a + b) * d == a * d + b * d
  {
  }

  lemma DivIs(x: nat, q: nat, d: nat, r: nat)
    requires r < d && x == q * d + r
    ensures x / d == q && x % d == r
  {
    var p := x / d;
    Distribute(p, 1, d);
    Distribute(q, 1, d);
    Below(p, q, d);
    Below(q, p, d);
  }

  lemma Product(a: nat, b: nat, c: nat)
    ensures a * (b * c) == a * b * c == a * c * b
  {
  }

  lemma Positive(a: nat, b: nat)
    requires a > 0 && b > 0
    ensures a * b > 0
  {
  }

  lemma DivDiv(x: nat, a: nat, b: nat)
    requires a > 0 && b > 0
    ensures a * b > 0 && x / (a * b) == x / a / b && x % (a * b) == x / a % b * a + x % a
  {
    var y := x / a;
    var q, r := y / b, y % b;
    Positive(a, b);
    Recombine(x, a, b, y, q, r, x % a);
    DivIs(x, q, a * b, r * a + x % a);
  }

  lemma Recombine(x: nat, a: nat, b: nat, y: nat, q: nat, r: nat, z: nat)
    requires x == y * a + z && y == q * b + r && r < b && z < a
    ensures x == q * (a * b) + (r * a + z) && r * a + z < a * b
  {
    Distribute(q * b, r, a);
    Product(q, a, b);
    Times(r + 1, b, a);
    Distribute(r, 1, a);
  }

  lemma MultipleMod(q: nat, d: nat)
    requires d > 0
    ensures q * d % d == 0 && q * d / d == q
  {
    DivIs(q * d, q, d, 0);
  }

  /* ---------------- Fields ---------------- */

  lemma {:induction false} OrZero(b: nat)
    ensures Or(0, b) == b
  {
    if b > 0 { OrZero(b / 2); }
  }

  lemma EvenPow(b: nat, s: nat)
    requires s > 0 && b % Pow2(s) == 0
    ensures b % 2 == 0 && b / 2 % Pow2(s - 1) == 0
  {
    DivDiv(b, 2, Pow2(s - 1));
  }

  /** Numbers without a common bit, one below bit `s` and one above: their union is the sum. */
  lemma {:induction false} OrIsSum(a: nat, b: nat, s: nat)
    requires a < Pow2(s) && b % Pow2(s) == 0
    ensures Or(a, b) == a + b
  {
    if s == 0 {
      OrZero(b);
    } else {
      EvenPow(b, s);
      OrIsSum(a / 2, b / 2, s - 1);
    }
  }

  /** The bits of a number that are in the low `n`. */
  lemma {:induction false} AndLow(x: nat, n: nat)
    ensures And(x, Pow2(n) - 1) == x % Pow2(n)
  {
    if n == 0 {
      AndZero(x);
    } else {
      AndLow(x / 2, n - 1);
      DivDiv(x, 2, Pow2(n - 1));
      assert (Pow2(n) - 1) / 2 == Pow2(n - 1) - 1;
    }
  }

  lemma {:induction false} AndZero(x: nat)
    ensures And(x, 0) == 0
  {
    if x > 0 { AndZero(x / 2); }
  }

  function Quotient(x: nat, d: nat): (r: nat)
    requires d > 0
  {
    x / d
  }

  /** The `n` bits from bit `s` up. */
  function Field(x: nat, n: nat, s: nat): (r: nat)
    ensures r < Pow2(n)
  {
    x / Pow2(s) % Pow2(n)
  }

  function Mask(n: nat, s: nat): (r: nat) {
    Scale(Pow2(n) - 1, Pow2(s))
  }

  function Scale(a: nat, b: nat): (r: nat) {
    a * b
  }

  lemma AndField(x: nat, n: nat, s: nat)
    ensures And(x, Mask(n, s)) == Field(x, n, s) * Pow2(s)
  {
    AndFieldOf(x, Pow2(n) - 1, n, s);
  }

  lemma {:induction false} AndFieldOf(x: nat, m: nat, n: nat, s: nat)
    requires m == Pow2(n) - 1
    ensures And(x, m * Pow2(s)) == Field(x, n, s) * Pow2(s)
  {
    if s == 0 {
      AndLow(x, n);
    } else {
      hide And;
      var p := Pow2(s - 1);
      Product(m, 2, p);
      AndFieldOf(x / 2, m, n, s - 1);
      DivDiv(x, 2, p);
      AndDouble(x, m * p);
      Product(Field(x, n, s), 2, p);
    }
  }

  lemma AndDouble(x: nat, m: nat)
    ensures And(x, 2 * m) == 2 * And(x / 2, m)
  {
    assert 2 * m / 2 == m && 2 * m % 2 == 0;
  }

  lemma {:induction false} AndOr(x: nat, a: nat, b: nat)
    ensures And(x, Or(a, b)) == Or(And(x, a), And(x, b))
    decreases x + a + b
  {
    if x + a + b > 0 {
      AndOr(x / 2, a / 2, b / 2);
      OrParts(a, b);
      AndParts(x, Or(a, b));
      AndParts(x, a);
      AndParts(x, b);
      OrParts(And(x, a), And(x, b));
    }
  }

  lemma OrParts(a: nat, b: nat)
    ensures Or(a, b) / 2 == Or(a / 2, b / 2) && (Or(a, b) % 2 == 1 <==> a % 2 == 1 || b % 2 == 1)
  {
  }

  lemma AndParts(a: nat, b: nat)
    ensures And(a, b) / 2 == And(a / 2, b / 2) && (And(a, b) % 2 == 1 <==> a % 2 == 1 && b % 2 == 1)
  {
  }

  lemma NotParts(p: nat, m: nat)
    requires m < 2 * p
    ensures (2 * p - 1 - m) / 2 == p - 1 - m / 2 && (2 * p - 1 - m) % 2 == 1 - m % 2
  {
  }

  /** The bits of a `w`-bit number that are not in a mask. */
  lemma {:induction false} AndNot(x: nat, m: nat, w: nat)
    requires x < Pow2(w) && m < Pow2(w)
    ensures And(x, Pow2(w) - 1 - m) + And(x, m) == x
  {
    if w == 0 {
      AndZero(x);
    } else {
      AndNot(x / 2, m / 2, w - 1);
      hide And, Pow2;
      var k := Pow2(w) - 1 - m;
      NotParts(Pow2(w - 1), m);
      AndParts(x, k);
      AndParts(x, m);
    }
  }
}
