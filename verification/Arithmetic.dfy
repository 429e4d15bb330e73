/** Quotients and remainders from the equation that defines them, and powers of two. */
module Arithmetic {
  lemma Quotient(n: int, d: int, q: int, r: int)
    requires n == d * q + r && 0 <= r < d
    ensures n / d == q && n % d == r
  {
    var e := n / d - q;
    assert n == d * (n / d) + n % d;
    assert d * (n / d) == d * q + d * e by { Distribute(d, q, e); }
    AtLeastOnce(d, e);
  }

  lemma Distribute(d: int, q: int, e: int)
    ensures d * (q + e) == d * q + d * e
  {}

  lemma AtLeastOnce(d: int, e: int)
    ensures d > 0 && e >= 1 ==> d * e >= d
    ensures d > 0 && e <= -1 ==> d * e <= -d
  {}

  /** Dividing twice is dividing by the product. */
  lemma Twofold(n: nat, a: nat, b: nat)
    requires a > 0 && b > 0
    ensures a * b > 0 && n / a / b == n / (a * b)
  {
    var q, r := n / a, n % a;
    var p, s := q / b, q % b;
    AtLeastOnce(a, b - s);
    Regroup(a, b, p, s);
    Quotient(n, a * b, p, a * s + r);
  }

  lemma Regroup(a: int, b: int, p: int, s: int)
    ensures a * (b * p + s) == a * b * p + a * s && a * (b - s) == a * b - a * s
  {}

  /** What a binary digit with the weight `d` adds to a number. */
  function Weight(b: bool, d: nat): (r: nat) { if b then d else 0 }

  // ----- powers of two --------------------------------------------------------------------

  function Pow2(k: nat): (r: nat)
    ensures r > 0
  {
    if k == 0 then 1 else 2 * Pow2(k - 1)
  }

  lemma {:induction false} Pow2Add(a: nat, b: nat)
    ensures Pow2(a + b) == Pow2(a) * Pow2(b)
  {
    hide Pow2;
    if a == 0 {
      Pow2Next(0);
    } else {
      Pow2Add(a - 1, b);
      Pow2Next(a - 1);
      Pow2Next(a - 1 + b);
      TwiceProduct(Pow2(a - 1), Pow2(b));
    }
  }

  lemma TwiceProduct(p: nat, q: nat)
    ensures (2 * p) * q == 2 * (p * q)
  {}

  lemma Pow2Next(k: nat)
    ensures Pow2(0) == 1 && Pow2(k + 1) == 2 * Pow2(k)
  {}

  lemma LargePowers()
    ensures Pow2(32) == 0x1_0000_0000 && Pow2(64) == 0x1_0000_0000_0000_0000
  {
    hide Pow2;
    Pow2Next(0);
    Pow2Add(1, 1);
    Pow2Add(2, 2);
    Pow2Add(4, 4);
    Pow2Add(8, 8);
    Pow2Add(16, 16);
    Pow2Add(32, 32);
  }

  /** `a << n`. */
  function ShiftUp(a: nat, n: nat): (r: nat) { if n == 0 then a else 2 * ShiftUp(a, n - 1) }

  lemma ShiftUpNext(a: nat, n: nat)
    ensures ShiftUp(a, 0) == a && ShiftUp(a, n + 1) == 2 * ShiftUp(a, n)
  {}

  lemma FewShifts(a: nat)
    ensures ShiftUp(a, 2) == 4 * a && ShiftUp(a, 4) == 16 * a && ShiftUp(a, 6) == 64 * a && ShiftUp(a, 10) == 1024 * a
  {
    hide ShiftUp;
    ShiftUpNext(a, 0);
    ShiftUpNext(a, 1);
    ShiftUpNext(a, 2);
    ShiftUpNext(a, 3);
    ShiftUpNext(a, 4);
    ShiftUpNext(a, 5);
    ShiftUpNext(a, 6);
    ShiftUpNext(a, 7);
    ShiftUpNext(a, 8);
    ShiftUpNext(a, 9);
  }
}
