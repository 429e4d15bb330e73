/** Words as bit vectors, whose operators on constants can be worked out. */
module BitVectors {
  import opened Arithmetic
  import opened Bits
  import opened Words

  // ----- the operators, each under a name of its own --------------------------------------

  function BXor(x: bv32, y: bv32): (r: bv32) { x ^ y }

  function BAnd(x: bv32, y: bv32): (r: bv32) { x & y }

  function BOr(x: bv32, y: bv32): (r: bv32) { x | y }

  function BAdd(x: bv32, y: bv32): (r: bv32) { x + y }

  lemma XorBits(x: bv32, y: bv32)
    ensures Halved(BXor(x, y)) == BXor(Halved(x), Halved(y)) && Low(BXor(x, y)) == (Low(x) != Low(y))
  {}

  lemma AndBits(x: bv32, y: bv32)
    ensures Halved(BAnd(x, y)) == BAnd(Halved(x), Halved(y)) && Low(BAnd(x, y)) == (Low(x) && Low(y))
  {}

  lemma OrBits(x: bv32, y: bv32)
    ensures Halved(BOr(x, y)) == BOr(Halved(x), Halved(y)) && Low(BOr(x, y)) == (Low(x) || Low(y))
  {}

  lemma Bitwise(x: bv32, y: bv32)
    ensures Halved(BXor(x, y)) == BXor(Halved(x), Halved(y)) && Low(BXor(x, y)) == (Low(x) != Low(y))
    ensures Halved(BAnd(x, y)) == BAnd(Halved(x), Halved(y)) && Low(BAnd(x, y)) == (Low(x) && Low(y))
    ensures Halved(BOr(x, y)) == BOr(Halved(x), Halved(y)) && Low(BOr(x, y)) == (Low(x) || Low(y))
  {
    hide *;
    XorBits(x, y);
    AndBits(x, y);
    OrBits(x, y);
  }

  // ----- words ----------------------------------------------------------------------------

  /** `x >> k`. */
  function Down(x: bv32, k: nat): (r: bv32)
    decreases k
  {
    if k == 0 then x else Down(Halved(x), k - 1)
  }

  lemma {:induction false} BitAt(x: bv32, n: nat, i: nat)
    requires i < n
    ensures BitsFrom(x, n)[i] == Low(Down(x, i))
    decreases n
  {
    hide Low, Halved;
    if i > 0 { BitAt(Halved(x), n - 1, i - 1); }
  }

  lemma {:induction false} DownDown(x: bv32, k: nat, i: nat)
    ensures Down(Down(x, k), i) == Down(x, k + i)
    decreases k
  {
    hide Halved;
    if k > 0 { DownDown(Halved(x), k - 1, i); }
  }

  lemma {:induction false} DownBitwise(x: bv32, y: bv32, k: nat)
    ensures Down(BXor(x, y), k) == BXor(Down(x, k), Down(y, k))
    ensures Down(BAnd(x, y), k) == BAnd(Down(x, k), Down(y, k))
    ensures Down(BOr(x, y), k) == BOr(Down(x, k), Down(y, k))
    decreases k
  {
    hide Halved, Low, BXor, BAnd, BOr;
    if k > 0 {
      Bitwise(x, y);
      DownBitwise(Halved(x), Halved(y), k - 1);
    }
  }

  lemma XorHex(x: bv32, y: bv32)
    ensures Xor(Hex(x), Hex(y)) == Hex(BXor(x, y))
  {
    hide BitsFrom, Down, Halved, Low, BXor, BAnd, BOr;
    forall i | 0 <= i < 32 ensures Xor(Hex(x), Hex(y))[i] == Hex(BXor(x, y))[i] {
      BitAt(x, 32, i);
      BitAt(y, 32, i);
      BitAt(BXor(x, y), 32, i);
      DownBitwise(x, y, i);
      Bitwise(Down(x, i), Down(y, i));
    }
  }

  lemma AndHex(x: bv32, y: bv32)
    ensures And(Hex(x), Hex(y)) == Hex(BAnd(x, y))
  {
    hide BitsFrom, Down, Halved, Low, BXor, BAnd, BOr;
    forall i | 0 <= i < 32 ensures And(Hex(x), Hex(y))[i] == Hex(BAnd(x, y))[i] {
      BitAt(x, 32, i);
      BitAt(y, 32, i);
      BitAt(BAnd(x, y), 32, i);
      DownBitwise(x, y, i);
      Bitwise(Down(x, i), Down(y, i));
    }
  }

  lemma OrHex(x: bv32, y: bv32)
    ensures Or(Hex(x), Hex(y)) == Hex(BOr(x, y))
  {
    hide BitsFrom, Down, Halved, Low, BXor, BAnd, BOr;
    forall i | 0 <= i < 32 ensures Or(Hex(x), Hex(y))[i] == Hex(BOr(x, y))[i] {
      BitAt(x, 32, i);
      BitAt(y, 32, i);
      BitAt(BOr(x, y), 32, i);
      DownBitwise(x, y, i);
      Bitwise(Down(x, i), Down(y, i));
    }
  }

  lemma DownEight(x: bv32)
    ensures Down(x, 8) == Eight(x)
  {}

  lemma {:induction false} DownZero(k: nat)
    ensures Down(0, k) == 0
  {
    if k > 0 { DownZero(k - 1); }
  }

  /** Nothing is left of bit 32 and up. */
  lemma DownAll(x: bv32, k: nat)
    requires k >= 32
    ensures Down(x, k) == 0
  {
    hide Down;
    DownEight(x);
    var a := Eight(x);
    DownEight(a);
    var b := Eight(a);
    DownEight(b);
    var c := Eight(b);
    DownEight(c);
    Gone(x);
    hide Eight;
    DownDown(x, 8, k - 8);
    DownDown(a, 8, k - 16);
    DownDown(b, 8, k - 24);
    DownDown(c, 8, k - 32);
    DownZero(k - 32);
  }

  function Eight(x: bv32): (r: bv32) { x >> 8 }

  lemma Gone(x: bv32)
    ensures Eight(Eight(Eight(Eight(x)))) == 0
  {}

  lemma ShrHex(x: bv32, n: nat)
    ensures Shr(Hex(x), n) == Hex(Down(x, n))
  {
    hide Hex, Shr, Down, Low;
    forall i | 0 <= i < 32 ensures Shr(Hex(x), n)[i] == Hex(Down(x, n))[i] {
      ShrAt(Hex(x), n, i);
      HexAt(Down(x, n), i);
      DownDown(x, n, i);
      if n + i < 32 { HexAt(x, n + i); } else { NoBit(x, n + i); }
    }
  }

  lemma ShrAt(w: Word, n: nat, i: nat)
    requires i < 32
    ensures Shr(w, n)[i] == (i + n < 32 && w[i + n])
  {}

  lemma HexAt(x: bv32, i: nat)
    requires i < 32
    ensures Hex(x)[i] == Low(Down(x, i))
  {
    hide BitsFrom, Down, Low;
    BitAt(x, 32, i);
  }

  lemma NoBit(x: bv32, k: nat)
    requires k >= 32
    ensures !Low(Down(x, k))
  {
    hide Down;
    DownAll(x, k);
  }

  // ----- addition -------------------------------------------------------------------------

  function Two(a: bool, b: bool, c: bool): (r: bool) { (a && b) || (a && c) || (b && c) }

  /** Addition bit by bit. */
  function Ripple(a: seq<bool>, b: seq<bool>, c: bool): (r: seq<bool>)
    requires |a| == |b|
    ensures |r| == |a|
  {
    if a == [] then [] else [(a[0] != b[0]) != c] + Ripple(a[1..], b[1..], Two(a[0], b[0], c))
  }

  function Carry(b: bool): (n: nat) { if b then 1 else 0 }

  lemma {:induction false} RippleIsSum(a: seq<bool>, b: seq<bool>, c: bool)
    requires |a| == |b|
    ensures FromNat(Number(a) + Number(b) + Carry(c), |a|) == Ripple(a, b, c)
  {
    if a != [] {
      RippleIsSum(a[1..], b[1..], Two(a[0], b[0], c));
      var rest := Number(a[1..]) + Number(b[1..]);
      var low := Carry(a[0]) + Carry(b[0]) + Carry(c);
      assert Number(a) + Number(b) + Carry(c) == 2 * rest + low;
      assert (2 * rest + low) / 2 == rest + Carry(Two(a[0], b[0], c));
      assert (2 * rest + low) % 2 == 1 <==> (a[0] != b[0]) != c;
    }
  }

  /** `v` is the carries of `x` and `y`, as far as `mask` reaches. */
  predicate Carries(x: bv32, y: bv32, v: bv32, mask: bv32) {
    (((x & y) | (x & v) | (y & v)) ^ (v >> 1)) & mask == 0
  }

  lemma CarriesBelow(x: bv32, y: bv32, v: bv32)
    requires v == BXor(BXor(x, y), BAdd(x, y))
    ensures Carries(x, y, v, 0x7fff) && !Low(v)
  {}

  lemma CarriesAbove(x: bv32, y: bv32, v: bv32)
    requires v == BXor(BXor(x, y), BAdd(x, y))
    ensures Carries(x, y, v, 0x7fff8000)
  {}

  lemma CarriesAll(x: bv32, y: bv32, v: bv32)
    requires Carries(x, y, v, 0x7fff) && Carries(x, y, v, 0x7fff8000)
    ensures Carries(x, y, v, 0x7fffffff)
  {}

  lemma CarriesNext(x: bv32, y: bv32, v: bv32, mask: bv32)
    requires Carries(x, y, v, mask)
    ensures Carries(Halved(x), Halved(y), Halved(v), Halved(mask))
    ensures Low(mask) ==> Low(Halved(v)) == Two(Low(x), Low(y), Low(v))
  {}

  lemma {:induction false} RippleOf(x: bv32, y: bv32, v: bv32, mask: bv32, n: nat)
    requires Carries(x, y, v, mask) && (n > 0 ==> All(mask, n - 1, true))
    ensures Ripple(BitsFrom(x, n), BitsFrom(y, n), Low(v)) == BitsFrom(BXor(BXor(x, y), v), n)
    decreases n
  {
    hide Carries, Two, Halved, Low, BXor, BitsFrom, Ripple, All;
    if n < 2 {
      RippleFew(x, y, v, n);
    } else {
      CarriesNext(x, y, v, mask);
      AllNext(mask, n - 1, true);
      RippleOf(Halved(x), Halved(y), Halved(v), Halved(mask), n - 1);
      RippleMore(x, y, v, n);
    }
  }

  lemma RippleFew(x: bv32, y: bv32, v: bv32, n: nat)
    requires n < 2
    ensures Ripple(BitsFrom(x, n), BitsFrom(y, n), Low(v)) == BitsFrom(BXor(BXor(x, y), v), n)
  {
    hide *;
    Bitwise(x, y);
    Bitwise(BXor(x, y), v);
    if n == 0 { RippleNone(x, y, v, BXor(BXor(x, y), v)); } else { RippleOne(x, y, v, BXor(BXor(x, y), v)); }
  }

  lemma RippleNone(x: bv32, y: bv32, v: bv32, z: bv32)
    ensures Ripple(BitsFrom(x, 0), BitsFrom(y, 0), Low(v)) == BitsFrom(z, 0)
  {
    hide *;
    FewBits(x);
    FewBits(y);
    FewBits(z);
    RippleFewBits(Low(x), Low(y), Low(v));
  }

  lemma RippleOne(x: bv32, y: bv32, v: bv32, z: bv32)
    requires Low(z) == ((Low(x) != Low(y)) != Low(v))
    ensures Ripple(BitsFrom(x, 1), BitsFrom(y, 1), Low(v)) == BitsFrom(z, 1)
  {
    hide *;
    FewBits(x);
    FewBits(y);
    FewBits(z);
    RippleFewBits(Low(x), Low(y), Low(v));
  }

  lemma FewBits(x: bv32)
    ensures BitsFrom(x, 0) == [] && BitsFrom(x, 1) == [Low(x)]
  {
    hide Low, Halved;
  }

  lemma RippleFewBits(a: bool, b: bool, c: bool)
    ensures Ripple([], [], c) == [] && Ripple([a], [b], c) == [(a != b) != c]
  {}

  lemma RippleMore(x: bv32, y: bv32, v: bv32, n: nat)
    requires n > 0 && Low(Halved(v)) == Two(Low(x), Low(y), Low(v))
    requires var x', y', v' := Halved(x), Halved(y), Halved(v);
             Ripple(BitsFrom(x', n - 1), BitsFrom(y', n - 1), Low(v')) == BitsFrom(BXor(BXor(x', y'), v'), n - 1)
    ensures Ripple(BitsFrom(x, n), BitsFrom(y, n), Low(v)) == BitsFrom(BXor(BXor(x, y), v), n)
  {
    hide Two, Halved, Low, BXor, BitsFrom, Ripple;
    BitsNext(x, n);
    BitsNext(y, n);
    BitsNext(BXor(BXor(x, y), v), n);
    Bitwise(x, y);
    Bitwise(BXor(x, y), v);
    RippleNext(Low(x), BitsFrom(Halved(x), n - 1), Low(y), BitsFrom(Halved(y), n - 1), Low(v));
  }

  lemma BitsNext(x: bv32, n: nat)
    ensures BitsFrom(x, n) == if n == 0 then [] else [Low(x)] + BitsFrom(Halved(x), n - 1)
  {
    hide Low, Halved;
  }

  lemma RippleNext(a: bool, s: seq<bool>, b: bool, t: seq<bool>, c: bool)
    requires |s| == |t|
    ensures Ripple([a] + s, [b] + t, c) == [(a != b) != c] + Ripple(s, t, Two(a, b, c))
  {
    assert ([a] + s)[1..] == s && ([b] + t)[1..] == t;
  }

  lemma AddHex(x: bv32, y: bv32)
    ensures Add(Hex(x), Hex(y)) == Hex(BAdd(x, y))
  {
    hide BitsFrom, Number, FromNat, Ripple, Carries, Low, Halved, BXor, BAdd, All;
    var v := CarriesOf(x, y);
    LowOnes();
    RippleOf(x, y, v, 0x7fffffff, 32);
    RippleIsSum(Hex(x), Hex(y), false);
  }

  lemma CarriesOf(x: bv32, y: bv32) returns (v: bv32)
    ensures Carries(x, y, v, 0x7fffffff) && BXor(BXor(x, y), v) == BAdd(x, y) && !Low(v)
  {
    hide *;
    v := BXor(BXor(x, y), BAdd(x, y));
    XorTwice(x, y, BAdd(x, y));
    CarriesBelow(x, y, v);
    CarriesAbove(x, y, v);
    CarriesAll(x, y, v);
  }

  lemma XorTwice(x: bv32, y: bv32, z: bv32)
    ensures BXor(BXor(x, y), BXor(BXor(x, y), z)) == z
  {}

  // ----- rotation -------------------------------------------------------------------------

  function Top(x: bv32): (r: bv32) { x << 31 }

  /** A rotation by one, and by `n`. */
  function Turn(x: bv32): (r: bv32) { BOr(Halved(x), Top(x)) }

  function Turns(x: bv32, n: nat): (r: bv32)
    decreases n
  {
    if n == 0 then x else Turns(Turn(x), n - 1)
  }

  lemma TopIs(x: bv32)
    ensures Top(x) == if Low(x) then 0x80000000 else 0
  {}

  /** Only bit 31 of `Top`. */
  lemma TopAt(x: bv32, i: nat)
    requires i < 32
    ensures Low(Down(Top(x), i)) == (i == 31 && Low(x))
  {
    TopIs(x);
    DownZero(i);
    NothingBelow();
    TopDown();
    hide Down, Halved, Top, All;
    assert !Low(0);
    if i < 31 { AllAt(0x80000000, 31, false, i); }
  }

  lemma TurnHex(x: bv32)
    ensures RotR(Hex(x), 1) == Hex(Turn(x))
  {
    hide BitsFrom, Down, Halved, Low, BOr, Top;
    forall i | 0 <= i < 32 ensures RotR(Hex(x), 1)[i] == Hex(Turn(x))[i] {
      BitAt(Turn(x), 32, i);
      DownBitwise(Halved(x), Top(x), i);
      Bitwise(Down(Halved(x), i), Down(Top(x), i));
      TopAt(x, i);
      DownHalf(x, i);
      if i < 31 {
        BitAt(x, 32, i + 1);
      } else {
        NoBit(x, 32);
        BitAt(x, 32, 0);
        DownNothing(x);
      }
    }
  }

  lemma DownHalf(x: bv32, i: nat)
    ensures Down(Halved(x), i) == Down(x, i + 1)
  {
    hide Halved;
  }

  lemma DownNothing(x: bv32)
    ensures Down(x, 0) == x
  {}

  lemma {:induction false} TurnsHex(x: bv32, n: nat)
    ensures RotR(Hex(x), n) == Hex(Turns(x, n))
    decreases n
  {
    hide Hex, Turn, RotR;
    if n == 0 {
      RotNothing(Hex(x));
    } else {
      TurnHex(x);
      TurnsHex(Turn(x), n - 1);
      RotOnce(Hex(x), n);
    }
  }

  lemma RotNothing(w: Word)
    ensures RotR(w, 0) == w
  {}

  lemma RotOnce(w: Word, n: nat)
    requires n > 0
    ensures RotR(RotR(w, 1), n - 1) == RotR(w, n)
  {
    forall i | 0 <= i < 32 ensures RotR(RotR(w, 1), n - 1)[i] == RotR(w, n)[i] {
      var q, j := (i + n - 1) / 32, (i + n - 1) % 32;
      if j < 31 { Quotient(i + n, 32, q, j + 1); } else { Quotient(i + n, 32, q + 1, 0); }
      assert RotR(RotR(w, 1), n - 1)[i] == RotR(w, 1)[j];
    }
  }

  // ----- runs of equal bits ---------------------------------------------------------------

  /** The lowest `n` bits are all `b`. */
  predicate All(mask: bv32, n: nat, b: bool)
    decreases n
  {
    n == 0 || (Low(mask) == b && All(Halved(mask), n - 1, b))
  }

  lemma AllNext(mask: bv32, n: nat, b: bool)
    ensures All(mask, n, b) && n > 0 ==> Low(mask) == b && All(Halved(mask), n - 1, b)
    ensures All(mask, 0, b)
  {
    hide Low, Halved;
  }

  lemma {:induction false} MoreAll(mask: bv32, k: nat, n: nat, b: bool)
    requires k <= n && All(mask, k, b) && All(Down(mask, k), n - k, b)
    ensures All(mask, n, b)
    decreases k
  {
    hide Low, Halved;
    if k > 0 { MoreAll(Halved(mask), k - 1, n - 1, b); }
  }

  lemma {:induction false} AllAt(mask: bv32, n: nat, b: bool, i: nat)
    requires All(mask, n, b) && i < n
    ensures Low(Down(mask, i)) == b
    decreases n
  {
    hide Low, Halved;
    if i > 0 { AllAt(Halved(mask), n - 1, b, i - 1); }
  }

  lemma LowOnes()
    ensures All(0x7fffffff, 31, true)
  {
    hide All, Down;
    FewOnes();
    DownEight(0x7fffffff);
    DownEight(0x7fffff);
    DownEight(0x7fff);
    MoreAll(0x7fff, 8, 15, true);
    MoreAll(0x7fffff, 8, 23, true);
    MoreAll(0x7fffffff, 8, 31, true);
  }

  lemma FewOnes()
    ensures All(0x7f, 7, true) && All(0x7fff, 8, true) && All(0x7fffff, 8, true) && All(0x7fffffff, 8, true)
    ensures All(0xff, 8, true) && All(0xffff, 8, true) && All(0xffffff, 8, true) && All(0xffffffff, 8, true)
  {}

  lemma OnesHex()
    ensures ONES == Hex(0xffffffff)
  {
    hide All, Down, BitsFrom, Low;
    AllOnes();
    forall i | 0 <= i < 32 ensures ONES[i] == Hex(0xffffffff)[i] {
      BitAt(0xffffffff, 32, i);
      AllAt(0xffffffff, 32, true, i);
    }
  }

  lemma NotHex(x: bv32)
    ensures Not(Hex(x)) == Hex(BXor(x, 0xffffffff))
  {
    hide Hex, BXor;
    OnesHex();
    XorHex(x, 0xffffffff);
  }

  lemma NotZero()
    ensures Not(ZERO) == ONES
  {}

  lemma AllOnes()
    ensures All(0xffffffff, 32, true)
  {
    hide All, Down;
    FewOnes();
    DownEight(0xffffffff);
    DownEight(0xffffff);
    DownEight(0xffff);
    MoreAll(0xffff, 8, 16, true);
    MoreAll(0xffffff, 8, 24, true);
    MoreAll(0xffffffff, 8, 32, true);
  }

  lemma NothingBelow()
    ensures All(0x80000000, 31, false)
  {
    hide All, Down;
    FewNothing();
    DownEight(0x80000000);
    DownEight(0x800000);
    DownEight(0x8000);
    MoreAll(0x8000, 8, 15, false);
    MoreAll(0x800000, 8, 23, false);
    MoreAll(0x80000000, 8, 31, false);
  }

  lemma FewNothing()
    ensures All(0x80, 7, false) && All(0x8000, 8, false) && All(0x800000, 8, false) && All(0x80000000, 8, false)
  {}

  lemma TopDown()
    ensures Low(Down(0x80000000, 31))
  {
    hide Down;
    DownEight(0x80000000);
    DownEight(0x800000);
    DownEight(0x8000);
    DownSeven();
    DownDown(0x80000000, 8, 23);
    DownDown(0x800000, 8, 15);
    DownDown(0x8000, 8, 7);
  }

  lemma DownSeven()
    ensures Down(0x80, 7) == 1 && Low(1)
  {}
}
