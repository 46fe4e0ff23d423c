/** Facts about products and quotients that the solver does not find alone. */
module Arithmetic {

  lemma MulKeepsOrder(a: int, b: int, c: nat)
    requires a <= b
    ensures a * c <= b * c
    ensures c * a <= c * b
  {
  }

  lemma CancelStrict(a: int, b: int, c: nat)
    requires a * c < b * c
    ensures a < b
  {
    MulKeepsOrder(b, if a < b then b else a, c);
  }

  lemma Cancel(a: int, b: int, c: nat)
    requires c > 0 && a * c <= b * c
    ensures a <= b
  {
    MulKeepsOrder(b + 1, if b < a then a else b + 1, c);
  }

  lemma Distributes(a: int, b: int, c: int)
    ensures (a + b) * c == a * c + b * c
    ensures c * (a + b) == c * a + c * b
  {
  }

  lemma QuotientBounds(x: nat, d: nat)
    requires d > 0
    ensures 0 <= x / d && (x / d) * d <= x < (x / d + 1) * d
  {
  }

  lemma DivMonotone(x: nat, y: nat, d: nat)
    requires x <= y && d > 0
    ensures 0 <= x / d <= y / d
  {
    QuotientBounds(x, d);
    QuotientBounds(y, d);
    CancelStrict(x / d, y / d + 1, d);
  }

  lemma DivUndoesMul(x: nat, d: nat)
    requires d > 0
    ensures x * d / d == x
  {
    var y := x * d;
    QuotientBounds(y, d);
    Cancel(y / d, x, d);
    CancelStrict(x, y / d + 1, d);
  }

  lemma DivPlusOne(x: nat, d: nat)
    requires d > 0
    ensures (x + d) / d == x / d + 1
  {
    QuotientBounds(x, d);
    QuotientBounds(x + d, d);
    Distributes(x / d, 1, d);
    Distributes(x / d + 1, 1, d);
    CancelStrict(x / d + 1, (x + d) / d + 1, d);
    CancelStrict((x + d) / d, x / d + 2, d);
  }

  lemma QuotientIs(x: nat, d: nat, q: nat)
    requires d > 0 && q * d <= x < (q + 1) * d
    ensures x / d == q
  {
    QuotientBounds(x, d);
    CancelStrict(q, x / d + 1, d);
    CancelStrict(x / d, q + 1, d);
  }

  lemma Regroup(q: nat, b: nat, a: nat)
    ensures q * b * a == q * (a * b)
  {
    assert b * a == a * b;
  }

  lemma DivTwice(x: nat, a: nat, b: nat)
    requires a > 0 && b > 0
    ensures 0 <= x / a && a * b > 0 && x / a / b == x / (a * b)
  {
    MulKeepsOrder(1, a, b);
    QuotientBounds(x, a);
    var y: nat := x / a;
    QuotientBounds(y, b);
    var q: nat := y / b;
    MulKeepsOrder(q * b, y, a);
    MulKeepsOrder(y + 1, (q + 1) * b, a);
    Regroup(q, b, a);
    Regroup(q + 1, b, a);
    QuotientIs(x, a * b, q);
  }

  lemma DivBelow(x: nat, d: nat)
    requires d > 0
    ensures 0 <= x / d <= x
  {
    QuotientBounds(x, d);
    MulKeepsOrder(1, d, x / d);
  }

  /** A fraction of at most one never grows, whichever way it is rounded. */
  lemma PartBelowWhole(x: nat, part: nat, whole: nat)
    requires part <= whole && whole > 0
    ensures 0 <= x * part && 0 <= x * part / whole <= x
    ensures 0 <= x / whole && 0 <= (x / whole) * part <= x
  {
    MulKeepsOrder(part, whole, x);
    MulKeepsOrder(0, part, x);
    DivMonotone(x * part, x * whole, whole);
    DivUndoesMul(x, whole);
    QuotientBounds(x, whole);
    MulKeepsOrder(part, whole, x / whole);
    MulKeepsOrder(0, part, x / whole);
  }
}
