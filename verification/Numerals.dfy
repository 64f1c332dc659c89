/** Positional numerals in any base, most significant digit first. */
module Numerals {
  function Pow(base: nat, n: nat): nat {
    if n == 0 then 1 else base * Pow(base, n - 1)
  }

  predicate AreDigits(base: nat, d: seq<nat>) {
    forall i :: 0 <= i < |d| ==> d[i] < base
  }

  function Value(base: nat, d: seq<nat>): nat {
    if d == [] then 0 else Value(base, d[..|d| - 1]) * base + d[|d| - 1]
  }

  function Quotient(n: nat, base: nat): nat
    requires base > 0
  {
    n / base
  }

  function Remainder(n: nat, base: nat): (r: nat)
    requires base > 0
    ensures r < base
  {
    n % base
  }

  /** The last `length` digits of `n`. */
  function Digits(base: nat, n: nat, length: nat): (d: seq<nat>)
    requires base > 0
    ensures |d| == length && AreDigits(base, d)
    decreases length
  {
    if length == 0 then [] else Digits(base, Quotient(n, base), length - 1) + [Remainder(n, base)]
  }

  /** Division with remainder, in both directions. */
  lemma Division(n: nat, base: nat, q: nat, r: nat)
    requires r < base
    ensures n == base * q + r <==> q == Quotient(n, base) && r == Remainder(n, base)
  {
    var p, s := n / base, n % base;
    assert n == base * p + s;
    if q < p {
      ProductMonotone(base, q + 1, p);
      assert base * (q + 1) == base * q + base;
    } else if p < q {
      ProductMonotone(base, p + 1, q);
      assert base * (p + 1) == base * p + base;
    }
  }

  lemma {:induction false} ProductMonotone(k: nat, x: nat, y: nat)
    requires x <= y
    ensures k * x <= k * y
    decreases y - x
  {
    if x < y {
      ProductMonotone(k, x, y - 1);
      assert k * y == k * (y - 1) + k;
    }
  }

  lemma QuotientFits(n: nat, base: nat, p: nat)
    requires base > 0 && n < base * p
    ensures Quotient(n, base) < p
  {
    hide Quotient, Remainder;
    Division(n, base, Quotient(n, base), Remainder(n, base));
    if p <= Quotient(n, base) {
      ProductMonotone(base, p, Quotient(n, base));
    }
  }

  lemma {:induction false} ValueOfDigits(base: nat, n: nat, length: nat)
    requires base > 0 && n < Pow(base, length)
    ensures Value(base, Digits(base, n, length)) == n
    decreases length
  {
    hide Quotient, Remainder;
    if length > 0 {
      var q, r := Quotient(n, base), Remainder(n, base);
      QuotientFits(n, base, Pow(base, length - 1));
      ValueOfDigits(base, q, length - 1);
      Division(n, base, q, r);
      var d := Digits(base, n, length);
      assert d[..length - 1] == Digits(base, q, length - 1) && d[length - 1] == r;
      assert q * base == base * q;
    }
  }

  lemma {:induction false} DigitsOfValue(base: nat, d: seq<nat>)
    requires base > 0 && AreDigits(base, d)
    ensures Digits(base, Value(base, d), |d|) == d
  {
    hide Quotient, Remainder;
    if d != [] {
      var init, last := d[..|d| - 1], d[|d| - 1];
      DigitsOfValue(base, init);
      assert Value(base, init) * base == base * Value(base, init);
      Division(Value(base, d), base, Value(base, init), last);
      assert d == init + [last];
    }
  }

  lemma {:induction false} ValueFits(base: nat, d: seq<nat>)
    requires AreDigits(base, d)
    ensures Value(base, d) < Pow(base, |d|)
  {
    if d != [] {
      var init := d[..|d| - 1];
      ValueFits(base, init);
      ProductMonotone(base, Value(base, init) + 1, Pow(base, |d| - 1));
      assert base * (Value(base, init) + 1) == Value(base, init) * base + base;
    }
  }

  lemma ProductAssociates(x: nat, y: nat, z: nat)
    ensures x * (y * z) == (x * y) * z
  {
  }

  lemma {:induction false} PowSum(base: nat, m: nat, n: nat)
    ensures Pow(base, m + n) == Pow(base, m) * Pow(base, n)
  {
    if m > 0 {
      PowSum(base, m - 1, n);
      ProductAssociates(base, Pow(base, m - 1), Pow(base, n));
    }
  }

  lemma Squares(x: nat, y: nat)
    requires x <= y
    ensures x * x <= y * y
  {
    ProductMonotone(x, x, y);
    ProductMonotone(y, x, y);
  }

  /** One step of repeated division. */
  lemma DivideOnce(base: nat, n: nat, length: nat)
    requires base > 0 && length > 0 && n < Pow(base, length)
    ensures Digits(base, n, length) == Digits(base, Quotient(n, base), length - 1) + [Remainder(n, base)]
    ensures Quotient(n, base) < Pow(base, length - 1)
  {
    hide Quotient, Remainder;
    QuotientFits(n, base, Pow(base, length - 1));
  }
}
