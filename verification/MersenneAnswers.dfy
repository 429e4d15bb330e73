/** The first number that the generator draws when nothing has seeded it. */
module MersenneAnswers {
  import opened Arithmetic
  import opened Bits
  import opened Words
  import opened BitVectors
  import opened HashAnswers
  import opened MersenneTwister

  // ----- shifts to the left ---------------------------------------------------------------

  function Doubled(x: bv32): (r: bv32) { x << 1 }

  function Up(x: bv32, n: nat): (r: bv32)
    decreases n
  {
    if n == 0 then x else Up(Doubled(x), n - 1)
  }

  lemma DoubledBits(x: bv32)
    ensures !Low(Doubled(x)) && Halved(Doubled(x)) == BAnd(x, 0x7fffffff)
  {}

  lemma ShlOnce(x: bv32)
    ensures Shl(Hex(x), 1) == Hex(Doubled(x))
  {
    hide BitsFrom, Down, Halved, Low, Doubled, BAnd;
    DoubledBits(x);
    DownNothing(Doubled(x));
    LowOnes();
    forall i | 0 <= i < 32 ensures Shl(Hex(x), 1)[i] == Hex(Doubled(x))[i] {
      BitAt(Doubled(x), 32, i);
      if i > 0 {
        BitAt(x, 32, i - 1);
        DownHalf(Doubled(x), i - 1);
        DownBitwise(x, 0x7fffffff, i - 1);
        AndBits(Down(x, i - 1), Down(0x7fffffff, i - 1));
        AllAt(0x7fffffff, 31, true, i - 1);
      }
    }
  }

  lemma {:induction false} ShlHex(x: bv32, n: nat)
    ensures Shl(Hex(x), n) == Hex(Up(x, n))
    decreases n
  {
    hide Hex, Doubled, Shl;
    if n == 0 {
      ShlNothing(Hex(x));
    } else {
      ShlOnce(x);
      ShlHex(Doubled(x), n - 1);
      ShlMore(Hex(x), n);
    }
  }

  lemma ShlNothing(w: Word)
    ensures Shl(w, 0) == w
  {}

  lemma ShlMore(w: Word, n: nat)
    requires n > 0
    ensures Shl(Shl(w, 1), n - 1) == Shl(w, n)
  {}

  lemma {:induction false} UpUp(x: bv32, m: nat, n: nat)
    ensures Up(Up(x, m), n) == Up(x, m + n)
    decreases m
  {
    hide Doubled;
    if m > 0 { UpUp(Doubled(x), m - 1, n); }
  }

  lemma Up7(x: bv32)
    ensures Up(x, 7) == x << 7
  {}

  lemma Up8(x: bv32)
    ensures Up(x, 8) == x << 8
  {}

  lemma Up15(x: bv32)
    ensures Up(x, 15) == x << 15
  {
    hide Up;
    Up8(x);
    Up7(Up(x, 8));
    UpUp(x, 8, 7);
  }

  lemma Down11(x: bv32)
    ensures Down(x, 11) == x >> 11
  {
    hide Down;
    DownEight(x);
    DownThree(Eight(x));
    DownDown(x, 8, 3);
  }

  lemma Down18(x: bv32)
    ensures Down(x, 18) == x >> 18
  {
    hide Down;
    Down11(x);
    DownSeven(Down(x, 11));
    DownDown(x, 11, 7);
  }

  lemma DownThree(x: bv32)
    ensures Down(x, 3) == x >> 3
  {}

  lemma DownSeven(x: bv32)
    ensures Down(x, 7) == x >> 7
  {}

  // ----- tempering ------------------------------------------------------------------------

  lemma LeftPart(x: bv32, n: nat, mask: bv32, y: bv32)
    requires BXor(x, BAnd(Up(x, n), mask)) == y
    ensures Xor(Hex(x), And(Shl(Hex(x), n), Hex(mask))) == Hex(y)
  {
    hide Hex, Xor, And, Shl, BXor, BAnd, Up;
    ShlHex(x, n);
    AndHex(Up(x, n), mask);
    XorHex(x, BAnd(Up(x, n), mask));
  }

  lemma RightPart(x: bv32, n: nat, y: bv32)
    requires BXor(x, Down(x, n)) == y
    ensures Xor(Hex(x), Shr(Hex(x), n)) == Hex(y)
  {
    hide Hex, Xor, Shr, BXor, Down;
    ShrHex(x, n);
    XorHex(x, Down(x, n));
  }

  lemma Tempered(x: bv32, a: bv32, b: bv32, c: bv32, d: bv32)
    requires BXor(x, x >> 11) == a && BXor(a, BAnd(a << 7, 0x9d2c5680)) == b
    requires BXor(b, BAnd(b << 15, 0xefc60000)) == c && BXor(c, c >> 18) == d
    ensures Temper(Hex(x)) == Hex(d)
  {
    hide Hex, Xor, And, Shl, Shr, BXor, BAnd, Up, Down;
    Down11(x);
    RightPart(x, 11, a);
    Up7(a);
    LeftPart(a, 7, 0x9d2c5680, b);
    Up15(b);
    LeftPart(b, 15, 0xefc60000, c);
    Down18(c);
    RightPart(c, 18, d);
  }

  lemma Twisted(m: bv32, s0: bv32, s1: bv32, r: bv32)
    requires BXor(BXor(m, Halved(BOr(BAnd(s0, 0x80000000), BAnd(s1, 0x7fffffff)))), 0x9908b0df) == r && Low(s1)
    ensures Twist(Hex(m), Hex(s0), Hex(s1)) == Hex(r)
  {
    hide BitsFrom, Xor, And, Or, Shr, BXor, BAnd, BOr, Low, Halved, Down;
    var mixed := BOr(BAnd(s0, 0x80000000), BAnd(s1, 0x7fffffff));
    AndHex(s0, 0x80000000);
    AndHex(s1, 0x7fffffff);
    OrHex(BAnd(s0, 0x80000000), BAnd(s1, 0x7fffffff));
    ShrHex(mixed, 1);
    DownHalf(mixed, 0);
    DownNothing(Halved(mixed));
    XorHex(m, Halved(mixed));
    XorHex(BXor(m, Halved(mixed)), 0x9908b0df);
    BitAt(s1, 32, 0);
    DownNothing(s1);
  }

  // ----- the first state ------------------------------------------------------------------

  function Power(k: nat): (r: nat) { if k == 0 then 1 else 69069 * Power(k - 1) }

  lemma {:induction false} PowerSum(a: nat, b: nat)
    ensures Power(a + b) == Power(a) * Power(b)
  {
    if a > 0 {
      PowerSum(a - 1, b);
      Regroup(69069, Power(a - 1), Power(b));
    }
  }

  lemma Regroup(x: nat, y: nat, z: nat)
    ensures x * (y * z) == x * y * z
  {}

  /** `n` is `r`, but for a multiple of 2^32. */
  predicate Is(n: nat, r: nat) { n % 0x1_0000_0000 == r }

  lemma IsProduct(m: nat, n: nat, r: nat, s: nat, t: nat)
    requires Is(m, r) && Is(n, s) && Is(r * s, t)
    ensures Is(m * n, t)
  {
    var p := 0x1_0000_0000;
    var a, b := m / p, n / p;
    var q := a * n + r * b;
    assert m == p * a + r && n == p * b + s;
    Expand(p, a, r, b, s);
    assert m * n == p * q + r * s;
    Quotient(p * q + r * s, p, q + r * s / p, t);
  }

  lemma Expand(p: nat, a: nat, r: nat, b: nat, s: nat)
    ensures (p * a + r) * (p * b + s) == p * (a * (p * b + s) + r * b) + r * s
  {
    var n := p * b + s;
    assert (p * a + r) * n == p * a * n + r * n;
    assert p * a * n == p * (a * n);
    assert r * n == r * (p * b) + r * s;
    assert r * (p * b) == p * (r * b);
    assert p * (a * n + r * b) == p * (a * n) + p * (r * b);
  }

  lemma PowerTwice(k: nat, r: nat, t: nat)
    requires Is(Power(k), r) && Is(r * r, t)
    ensures Is(Power(2 * k), t)
  {
    hide Power, Is;
    PowerSum(k, k);
    IsProduct(Power(k), Power(k), r, r, t);
  }

  lemma PowerTwiceAndOnce(k: nat, r: nat, t: nat, u: nat)
    requires Is(Power(k), r) && Is(r * r, t) && Is(69069 * t, u)
    ensures Is(Power(2 * k + 1), u)
  {
    PowerTwice(k, r, t);
    IsProduct(69069, Power(2 * k), 69069, t, u);
  }

  lemma Power397()
    ensures Is(Power(397), 1719184061)
  {
    hide Power;
    FirstPower();
    PowerTwiceAndOnce(1, 69069, 475559465, 2801775573);
    PowerTwice(3, 2801775573, 4238970681);
    PowerTwice(6, 4238970681, 2707602097);
    PowerTwice(12, 2707602097, 430550625);
    PowerTwiceAndOnce(24, 430550625, 2765750465, 358442893);
    PowerTwiceAndOnce(49, 358442893, 2287256489, 1031357269);
    PowerTwice(99, 1031357269, 974101049);
    PowerTwiceAndOnce(198, 974101049, 1133945009, 1719184061);
  }

  lemma FirstPower()
    ensures Is(Power(1), 69069) && Power(1) == 69069 && Power(0) == 1
  {}

  lemma {:induction false} XIsPower(n: nat, k: nat)
    requires k < N && n % 2 == 1
    ensures X(Word32(n), k) == FromNat(n * Power(k), 32)
  {
    hide Congruential, Or, FromNat;
    if k == 0 {
      XSeed(Word32(n));
      OddSeed(n);
      assert Power(0) == 1;
    } else {
      XStep(Word32(n), k);
      XIsPower(n, k - 1);
      NextPower(n * Power(k - 1));
      Swapped(n, Power(k - 1));
    }
  }

  lemma Swapped(n: nat, p: nat)
    ensures 69069 * (n * p) == n * (69069 * p)
  {}

  lemma OddSeed(n: nat)
    requires n % 2 == 1
    ensures Or(Word32(n), ONE) == FromNat(n, 32)
  {
    FirstBit(n, 32);
    OneBits();
    hide FromNat, BitsFrom;
    forall i | 0 <= i < 32 ensures Or(Word32(n), ONE)[i] == FromNat(n, 32)[i] {
      assert i == 0 ==> FromNat(n, 32)[i];
    }
  }

  lemma OneBits()
    ensures forall i :: 0 <= i < 32 ==> ONE[i] == (i == 0)
  {
    hide BitsFrom;
    BitsNext(1, 32);
    assert Low(1) && Halved(1) == 0;
    NoBits(31);
  }

  lemma NextPower(m: nat)
    ensures Congruential(FromNat(m, 32)) == FromNat(69069 * m, 32)
  {
    hide FromNat, Number, Pow2;
    var q := NumberOfBits(m, 32);
    var r := Number(FromNat(m, 32));
    Spread(r, q, Pow2(32));
    BitsOfSum(69069 * r, 69069 * q, 32);
  }

  lemma Spread(r: nat, q: nat, p: nat)
    ensures 69069 * (r + q * p) == 69069 * r + 69069 * q * p
  {}

  // ----- numbers as constants -------------------------------------------------------------

  /** The four low bits of a number and of a constant, and what is above them. */
  lemma OneNibble(n: nat, q: nat, x: bv32, y: bv32, b3: bool, b2: bool, b1: bool, b0: bool, width: nat)
    requires width >= 4 && x >> 4 == y && FromNat(q, width - 4) == BitsFrom(y, width - 4)
    requires n == 16 * q + Weight(b3, 8) + Weight(b2, 4) + Weight(b1, 2) + Weight(b0, 1)
    requires (x & 1 != 0) == b0 && (x & 2 != 0) == b1 && (x & 4 != 0) == b2 && (x & 8 != 0) == b3
    ensures FromNat(n, width) == BitsFrom(x, width)
  {
    hide FromNat, BitsFrom;
    var r := Weight(b3, 8) + Weight(b2, 4) + Weight(b1, 2) + Weight(b0, 1);
    Quotient(n, 16, q, r);
    Quotient(n, 2, 8 * q + Weight(b3, 4) + Weight(b2, 2) + Weight(b1, 1), Weight(b0, 1));
    Quotient(n, 4, 4 * q + Weight(b3, 2) + Weight(b2, 1), Weight(b1, 2) + Weight(b0, 1));
    Quotient(n, 8, 2 * q + Weight(b3, 1), Weight(b2, 4) + Weight(b1, 2) + Weight(b0, 1));
    Quotient(n / 2, 2, n / 4, Weight(b1, 1));
    Quotient(n / 4, 2, n / 8, Weight(b2, 1));
    Quotient(n / 8, 2, q, Weight(b3, 1));
    FourBits(n, width);
    FourOf(x, width);
    assert Four(n) == [b0, b1, b2, b3];
  }

  lemma FourOf(x: bv32, width: nat)
    requires width >= 4
    ensures BitsFrom(x, width) == [x & 1 != 0, x & 2 != 0, x & 4 != 0, x & 8 != 0] + BitsFrom(x >> 4, width - 4)
  {
    hide BitsFrom;
    var y, z, u := Halved(x), Halved(Halved(x)), Halved(Halved(Halved(x)));
    BitsNext(x, width);
    BitsNext(y, width - 1);
    BitsNext(z, width - 2);
    BitsNext(u, width - 3);
    FourLow(x);
    hide Low, Halved;
    InARow(Low(x), Low(y), Low(z), Low(u), BitsFrom(Halved(u), width - 4));
  }

  lemma FourLow(x: bv32)
    ensures Low(Halved(x)) == (x & 2 != 0) && Low(Halved(Halved(x))) == (x & 4 != 0)
    ensures Low(Halved(Halved(Halved(x)))) == (x & 8 != 0) && Low(x) == (x & 1 != 0)
    ensures Halved(Halved(Halved(Halved(x)))) == x >> 4
  {}

  lemma Reduced(n: nat, r: nat)
    requires Is(n, r)
    ensures FromNat(n, 32) == FromNat(r, 32)
  {
    hide FromNat, Pow2;
    LargePowers();
    assert n == r + n / 0x1_0000_0000 * 0x1_0000_0000;
    BitsOfSum(r, n / 0x1_0000_0000, 32);
  }

  // ----- the first number -----------------------------------------------------------------

  /** The words of the first state that the first number comes from. */
  lemma FirstWords()
    ensures X(Word32(4357), 0) == Hex(0x1105) && X(Word32(4357), 1) == Hex(0x11efe201)
    ensures X(Word32(4357), 397) == Hex(0x03b1e2b1)
  {
    hide FromNat, BitsFrom, Power, X, Is;
    XIsPower(4357, 0);
    XIsPower(4357, 1);
    XIsPower(4357, 397);
    FirstPower();
    Numbers();
    Power397();
    Seeded397();
    Reduced(4357 * Power(397), 61989553);
  }

  lemma Numbers()
    ensures FromNat(4357, 32) == Hex(0x1105) && FromNat(300933633, 32) == Hex(0x11efe201)
    ensures FromNat(61989553, 32) == Hex(0x03b1e2b1)
  {
    hide *;
    Number0();
    Number1();
    Number397();
  }

  lemma Number0()
    ensures FromNat(4357, 32) == Hex(0x1105)
  {
    hide FromNat, BitsFrom;
    NoDigits(0);
    OneNibble(0, 0, 0x0, 0x0, false, false, false, false, 4);
    OneNibble(0, 0, 0x0, 0x0, false, false, false, false, 8);
    OneNibble(0, 0, 0x0, 0x0, false, false, false, false, 12);
    OneNibble(0, 0, 0x0, 0x0, false, false, false, false, 16);
    OneNibble(1, 0, 0x1, 0x0, false, false, false, true, 20);
    OneNibble(17, 1, 0x11, 0x1, false, false, false, true, 24);
    OneNibble(272, 17, 0x110, 0x11, false, false, false, false, 28);
    OneNibble(4357, 272, 0x1105, 0x110, false, true, false, true, 32);
  }

  lemma Number1()
    ensures FromNat(300933633, 32) == Hex(0x11efe201)
  {
    hide FromNat, BitsFrom;
    NoDigits(0);
    OneNibble(1, 0, 0x1, 0x0, false, false, false, true, 4);
    OneNibble(17, 1, 0x11, 0x1, false, false, false, true, 8);
    OneNibble(286, 17, 0x11e, 0x11, true, true, true, false, 12);
    OneNibble(4591, 286, 0x11ef, 0x11e, true, true, true, true, 16);
    OneNibble(73470, 4591, 0x11efe, 0x11ef, true, true, true, false, 20);
    OneNibble(1175522, 73470, 0x11efe2, 0x11efe, false, false, true, false, 24);
    OneNibble(18808352, 1175522, 0x11efe20, 0x11efe2, false, false, false, false, 28);
    OneNibble(300933633, 18808352, 0x11efe201, 0x11efe20, false, false, false, true, 32);
  }

  lemma Number397()
    ensures FromNat(61989553, 32) == Hex(0x3b1e2b1)
  {
    hide FromNat, BitsFrom;
    NoDigits(0);
    OneNibble(0, 0, 0x0, 0x0, false, false, false, false, 4);
    OneNibble(3, 0, 0x3, 0x0, false, false, true, true, 8);
    OneNibble(59, 3, 0x3b, 0x3, true, false, true, true, 12);
    OneNibble(945, 59, 0x3b1, 0x3b, false, false, false, true, 16);
    OneNibble(15134, 945, 0x3b1e, 0x3b1, true, true, true, false, 20);
    OneNibble(242146, 15134, 0x3b1e2, 0x3b1e, false, false, true, false, 24);
    OneNibble(3874347, 242146, 0x3b1e2b, 0x3b1e2, true, false, true, true, 28);
    OneNibble(61989553, 3874347, 0x3b1e2b1, 0x3b1e2b, false, false, false, true, 32);
  }

  lemma NoDigits(x: bv32)
    ensures FromNat(0, 0) == BitsFrom(x, 0)
  {}

  lemma Seeded397()
    ensures Is(4357 * Power(397), 61989553)
  {
    hide Power;
    Power397();
    IsProduct(4357, Power(397), 4357, 1719184061, 61989553);
  }

  /** Nothing but the default seed 4357 given, number 3510405877. */
  lemma FirstNumber()
    ensures Temper(X(Word32(4357), N)) == Hex(0xd13c8af5)
  {
    hide X, Twist, Temper, Hex;
    FirstWords();
    XNext(Word32(4357), N);
    Twisted(0x03b1e2b1, 0x1105, 0x11efe201, 0x924ea36e);
    Tempered(0x924ea36e, 0x925ceaba, 0x9e78beba, 0xd13cbeba, 0xd13c8af5);
  }

  method FirstDraw(garbage: Word) returns (r: Word)
    ensures r == Hex(0xd13c8af5)
  {
    hide X, Temper, Hex, Word32;
    var g := new Generator(garbage);
    r := g.RandomInt();
    FirstNumber();
  }
}
