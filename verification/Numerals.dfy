/** Positional numerals, least significant digit first. */
module Numerals {
  function Pow(b: nat, n: nat): nat {
    if n == 0 then 1 else b * Pow(b, n - 1)
  }

  ghost predicate DigitsOf(b: nat, ds: seq<nat>) {
    forall i | 0 <= i < |ds| :: ds[i] < b
  }

  function Val(b: nat, ds: seq<nat>): nat {
    if ds == [] then 0 else ds[0] + b * Val(b, ds[1..])
  }

  /** `n` with its `k` lowest digits dropped, one at a time. */
  function Drop(b: nat, n: nat, k: nat): nat
    requires b > 0
    decreases k
  {
    if k == 0 then n else Drop(b, n / b, k - 1)
  }

  /** The `len` lowest digits of `n`. */
  function Digits(b: nat, n: nat, len: nat): (ds: seq<nat>)
    requires b > 0
    ensures |ds| == len
    decreases len
  {
    if len == 0 then [] else [n % b] + Digits(b, n / b, len - 1)
  }

  lemma DivUnique(a: nat, d: nat, q: nat, r: nat)
    requires r < d && a == q * d + r
    ensures a / d == q && a % d == r
  {
    var p, s := a / d, a % d;
    assert a == p * d + s;
    if p < q {
      MulMono(p + 1, q, d);
      assert false;
    }
    if q < p {
      MulMono(q + 1, p, d);
      assert false;
    }
  }

  lemma MulMono(x: nat, y: nat, d: nat)
    requires x <= y
    ensures x * d <= y * d
  {}

  lemma DivDiv(a: nat, b: nat, c: nat)
    requires b > 0 && c > 0
    ensures b * c > 0 && a / (b * c) == (a / b) / c
  {
    var q, r1, r0 := (a / b) / c, (a / b) % c, a % b;
    assert a == (q * c + r1) * b + r0;
    assert (q * c + r1) * b == q * (b * c) + r1 * b;
    assert r1 * b <= (c - 1) * b by { MulMono(r1, c - 1, b); }
    assert (c - 1) * b + b == b * c;
    DivUnique(a, b * c, q, r1 * b + r0);
  }

  lemma {:induction false} PowPositive(b: nat, n: nat)
    requires b > 0
    ensures Pow(b, n) > 0
  {
    if n > 0 {
      PowPositive(b, n - 1);
    }
  }

  lemma {:induction false} DropIsDiv(b: nat, n: nat, k: nat)
    requires b > 0
    ensures Pow(b, k) > 0 && Drop(b, n, k) == n / Pow(b, k)
    decreases k
  {
    PowPositive(b, k);
    if k > 0 {
      PowPositive(b, k - 1);
      DropIsDiv(b, n / b, k - 1);
      DivDiv(n, b, Pow(b, k - 1));
    }
  }

  lemma {:induction false} PowAdd(b: nat, m: nat, n: nat)
    ensures Pow(b, m + n) == Pow(b, m) * Pow(b, n)
  {
    if m > 0 {
      PowAdd(b, m - 1, n);
      var p, q := Pow(b, m - 1), Pow(b, n);
      assert b * p * q == b * (p * q);
    }
  }

  lemma ValStep(b: nat, d: nat, v: nat)
    requires d < b
    ensures (d + b * v) / b == v && (d + b * v) % b == d
  {
    assert d + b * v == v * b + d;
    DivUnique(d + b * v, b, v, d);
  }

  /** The value of the digits from `k` on is what is left when `k` digits are dropped. */
  lemma {:induction false} DropVal(b: nat, ds: seq<nat>, k: nat)
    requires DigitsOf(b, ds) && k <= |ds| && b > 0
    ensures Drop(b, Val(b, ds), k) == Val(b, ds[k..])
    decreases k
  {
    if k > 0 {
      ValStep(b, ds[0], Val(b, ds[1..]));
      DropVal(b, ds[1..], k - 1);
      assert ds[1..][k - 1..] == ds[k..];
    }
  }

  /** The digits of the value of a numeral are its digits. */
  lemma {:induction false} DigitsVal(b: nat, ds: seq<nat>)
    requires DigitsOf(b, ds) && b > 0
    ensures Digits(b, Val(b, ds), |ds|) == ds
  {
    if ds != [] {
      ValStep(b, ds[0], Val(b, ds[1..]));
      DigitsVal(b, ds[1..]);
    }
  }

  lemma QuotientBound(n: nat, b: nat, p: nat)
    requires b > 0 && n < b * p
    ensures n / b < p
  {
    if n / b >= p {
      MulMono(p, n / b, b);
      assert false;
    }
  }

  lemma StepBound(b: nat, d: nat, v: nat, p: nat)
    requires d < b && v < p
    ensures d + b * v < b * p
  {
    MulMono(v + 1, p, b);
  }

  /** The value of enough digits of a number is the number. */
  lemma {:induction false} ValDigits(b: nat, n: nat, len: nat)
    requires b > 0 && n < Pow(b, len)
    ensures DigitsOf(b, Digits(b, n, len)) && Val(b, Digits(b, n, len)) == n
    decreases len
  {
    if len > 0 {
      QuotientBound(n, b, Pow(b, len - 1));
      ValDigits(b, n / b, len - 1);
      var rest := Digits(b, n / b, len - 1);
      assert Digits(b, n, len) == [n % b] + rest;
      assert ([n % b] + rest)[1..] == rest;
      assert Val(b, [n % b] + rest) == n % b + b * (n / b);
    }
  }

  lemma {:induction false} ValBound(b: nat, ds: seq<nat>)
    requires DigitsOf(b, ds)
    ensures Val(b, ds) < Pow(b, |ds|)
  {
    if ds != [] {
      ValBound(b, ds[1..]);
      StepBound(b, ds[0], Val(b, ds[1..]), Pow(b, |ds| - 1));
    }
  }

  lemma {:induction false} DigitAt(b: nat, n: nat, len: nat, k: nat)
    requires b > 0 && k < len
    ensures Digits(b, n, len)[k] == Drop(b, n, k) % b
    decreases len
  {
    if k > 0 {
      DigitAt(b, n / b, len - 1, k - 1);
    }
  }
}
