/** Logarithms, inverses and the S-box of AES, in both directions (section 5.1.1 of FIPS 197). */
module SBox {
  import opened GaloisField

  // ----- bytes as numbers -----------------------------------------------------------------

  function Bit(b: bool, weight: nat): (r: nat) { if b then weight else 0 }

  /** The number an `unsigned char` holds. */
  function Val(x: Byte): (r: nat)
    ensures r < 256
  {
    ValIs(x);
    ValBits(BitsOf(x), 1)
  }

  /** The number with these bits, the first of them counting for `weight`. */
  function ValBits(s: seq<bool>, weight: nat): (r: nat)
    decreases |s|
  {
    if s == [] then 0 else Bit(s[0], weight) + ValBits(s[1..], 2 * weight)
  }

  /** All eight bits. */
  lemma ValIs(x: Byte)
    ensures ValBits(BitsOf(x), 1) == Bit(x.b7, 128) + Bit(x.b6, 64) + Bit(x.b5, 32) + Bit(x.b4, 16)
                                     + Bit(x.b3, 8) + Bit(x.b2, 4) + Bit(x.b1, 2) + Bit(x.b0, 1)
  {
    hide Bit;
    var s := BitsOf(x);
    FourWeights(s, 1);
    FourWeights(s[4..], 16);
    assert s[4..][4..] == [];
  }

  lemma FourWeights(s: seq<bool>, w: nat)
    requires |s| >= 4
    ensures ValBits(s, w) == Bit(s[0], w) + Bit(s[1], 2 * w) + Bit(s[2], 4 * w) + Bit(s[3], 8 * w)
            + ValBits(s[4..], 16 * w)
  {
    hide Bit, ValBits;
    assert s[1..][1..] == s[2..] && s[2..][1..] == s[3..] && s[3..][1..] == s[4..];
    FirstWeight(s, w);
    FirstWeight(s[1..], 2 * w);
    FirstWeight(s[2..], 4 * w);
    FirstWeight(s[3..], 8 * w);
  }

  lemma FirstWeight(s: seq<bool>, w: nat)
    requires s != []
    ensures ValBits(s, w) == Bit(s[0], w) + ValBits(s[1..], 2 * w)
  {}

  function Drop(n: nat, weight: nat): (r: nat) { if n >= weight then n - weight else n }

  function ByteOf(n: nat): (r: Byte) {
    var n6 := Drop(n, 128);
    var n5 := Drop(n6, 64);
    var n4 := Drop(n5, 32);
    var n3 := Drop(n4, 16);
    var n2 := Drop(n3, 8);
    var n1 := Drop(n2, 4);
    var n0 := Drop(n1, 2);
    B(n >= 128, n6 >= 64, n5 >= 32, n4 >= 16, n3 >= 8, n2 >= 4, n1 >= 2, n0 >= 1)
  }

  lemma DropBit(n: nat, weight: nat)
    requires n < 2 * weight
    ensures n == Bit(n >= weight, weight) + Drop(n, weight) && Drop(n, weight) < weight
  {}

  lemma ValOf(n: nat)
    requires n < 256
    ensures Val(ByteOf(n)) == n
  {
    hide Drop, Bit, ValBits;
    ValIs(ByteOf(n));
    var n6 := Drop(n, 128);
    var n5 := Drop(n6, 64);
    var n4 := Drop(n5, 32);
    var n3 := Drop(n4, 16);
    var n2 := Drop(n3, 8);
    var n1 := Drop(n2, 4);
    var n0 := Drop(n1, 2);
    DropBit(n, 128);
    DropBit(n6, 64);
    DropBit(n5, 32);
    DropBit(n4, 16);
    DropBit(n3, 8);
    DropBit(n2, 4);
    DropBit(n1, 2);
    DropBit(n0, 1);
  }

  function Nibble(b3: bool, b2: bool, b1: bool, b0: bool): (r: nat)
    ensures r < 16
  {
    Bit(b3, 8) + Bit(b2, 4) + Bit(b1, 2) + Bit(b0, 1)
  }

  lemma TwoNibbles(x: Byte)
    ensures Val(x) == 16 * Nibble(x.b7, x.b6, x.b5, x.b4) + Nibble(x.b3, x.b2, x.b1, x.b0)
  {
    hide ValBits;
    ValIs(x);
  }

  lemma NibbleInjective(x3: bool, x2: bool, x1: bool, x0: bool, y3: bool, y2: bool, y1: bool, y0: bool)
    requires Nibble(x3, x2, x1, x0) == Nibble(y3, y2, y1, y0)
    ensures x3 == y3 && x2 == y2 && x1 == y1 && x0 == y0
  {}

  lemma ValInjective(x: Byte, y: Byte)
    requires Val(x) == Val(y)
    ensures x == y
  {
    hide Val, Nibble;
    TwoNibbles(x);
    TwoNibbles(y);
    NibbleInjective(x.b7, x.b6, x.b5, x.b4, y.b7, y.b6, y.b5, y.b4);
    NibbleInjective(x.b3, x.b2, x.b1, x.b0, y.b3, y.b2, y.b1, y.b0);
  }

  // ----- logarithms -----------------------------------------------------------------------

  /** Powers below the order are different. */
  lemma PowInjective(i: nat, j: nat)
    requires i < j < i + 255
    ensures Pow(i) != Pow(j)
  {
    hide Pow, Mul;
    Order(j - i);
    if Pow(i) == Pow(j) { PowSubtract(i, j); }
  }

  lemma {:induction false} PowSubtract(i: nat, j: nat)
    requires i <= j && Pow(i) == Pow(j)
    ensures Pow(j - i) == ONE
    decreases i
  {
    hide Xor, XTime;
    if i > 0 {
      StepSame(Pow(i - 1), Pow(j - 1));
      PowSubtract(i - 1, j - 1);
    }
  }

  lemma StepSame(x: Byte, y: Byte)
    requires Xor(x, XTime(x)) == Xor(y, XTime(y))
    ensures x == y
  {
    hide Xor, XTime;
    var d := Xor(x, y);
    XTimeXor(x, y);
    XorInterchange(x, y, XTime(x), XTime(y));
    XorZero(Xor(x, XTime(x)));
    StepInjective(d);
    XorCancel(x, y);
    XorZero(y);
  }

  /** Distinct numbers from 1 to 255, 255 of them, are all the numbers from 1 to 255. */
  ghost function Logs(n: nat): (r: set<nat>) { set i | 1 <= i <= n :: Val(Pow(i)) }

  lemma {:induction false} LogsSize(n: nat)
    requires n <= 255
    ensures |Logs(n)| == n
  {
    hide Pow, Val;
    if n == 0 {
      assert Logs(0) == {};
    } else {
      LogsSize(n - 1);
      var v := Val(Pow(n));
      forall i | 1 <= i <= n - 1 ensures Val(Pow(i)) != v {
        PowInjective(i, n);
        if Val(Pow(i)) == v { ValInjective(Pow(i), Pow(n)); }
      }
      assert Logs(n) == Logs(n - 1) + {v};
    }
  }

  lemma {:induction false} Interval(n: nat) returns (s: set<nat>)
    ensures |s| == n && forall k :: k in s <==> 1 <= k <= n
  {
    if n == 0 {
      s := {};
    } else {
      s := Interval(n - 1);
      s := s + {n};
    }
  }

  lemma SubsetSize(a: set<nat>, b: set<nat>)
    requires a <= b && |a| == |b|
    ensures a == b
  {
    assert b == a + (b - a);
    assert |b| == |a| + |b - a|;
  }

  lemma NonzeroVal(x: Byte)
    ensures x != ZERO <==> Val(x) >= 1
  {
    hide ValBits;
    ValIs(x);
  }

  /** Every nonzero byte is a power of 3. */
  lemma HasLog(x: Byte)
    requires x != ZERO
    ensures exists j :: 1 <= j <= 255 && Pow(j) == x
  {
    hide Pow, Val;
    LogsSize(255);
    var all := Interval(255);
    forall v | v in Logs(255) ensures v in all {
      var i :| 1 <= i <= 255 && v == Val(Pow(i));
      PowNonzero(i);
      NonzeroVal(Pow(i));
    }
    SubsetSize(Logs(255), all);
    NonzeroVal(x);
    assert Val(x) in Logs(255);
    var j :| 1 <= j <= 255 && Val(x) == Val(Pow(j));
    ValInjective(x, Pow(j));
  }

  /** The exponent from 1 to 255 that `log` holds once the table is filled. */
  ghost function Log(x: Byte): (j: nat)
    requires x != ZERO
    ensures 1 <= j <= 255 && Pow(j) == x
  {
    HasLog(x);
    var j :| 1 <= j <= 255 && Pow(j) == x;
    j
  }

  lemma LogUnique(x: Byte, j: nat)
    requires x != ZERO && 1 <= j <= 255 && Pow(j) == x
    ensures Log(x) == j
  {
    hide Pow;
    if Log(x) < j { PowInjective(Log(x), j); } else if j < Log(x) { PowInjective(j, Log(x)); }
  }

  // ----- inverses -------------------------------------------------------------------------

  ghost function Inv(x: Byte): (r: Byte) { if x == ZERO then ZERO else Pow(255 - Log(x)) }

  /** It is the multiplicative inverse. */
  lemma InvIsInverse(x: Byte)
    requires x != ZERO
    ensures Mul(x, Inv(x)) == ONE
  {
    hide Mul, Pow;
    PowAdd(Log(x), 255 - Log(x));
    PowersTo255();
  }

  lemma InvInv(x: Byte)
    ensures Inv(Inv(x)) == x
  {
    hide Pow, Mul;
    if x != ZERO {
      var j := Log(x);
      PowNonzero(255 - j);
      PowZero();
      PowersTo255();
      if j == 255 { LogUnique(ONE, 255); } else { LogUnique(Pow(255 - j), 255 - j); }
    }
  }

  lemma PowZero()
    ensures Pow(0) == ONE && ONE != ZERO
  {}

  lemma ZeroTimes(x: Byte)
    ensures Mul(ZERO, x) == ZERO && Mul(x, ZERO) == ZERO
  {
    hide Stage, Xor, Mul;
    MulIs(ZERO, x);
    StageOfZero(x.b0);
    StageOfZero(x.b1);
    StageOfZero(x.b2);
    StageOfZero(x.b3);
    StageOfZero(x.b4);
    StageOfZero(x.b5);
    StageOfZero(x.b6);
    StageOfZero(x.b7);
    MulUnits(x);
  }

  lemma StageOfZero(b: bool)
    ensures Stage(b, ZERO, ZERO) == ZERO
  {
    XorZero(ZERO);
  }

  /** `MUL`: a table lookup of the sum of two logarithms modulo 255. */
  lemma MulByLogs(x: Byte, y: Byte, z: Byte)
    requires x != ZERO && y != ZERO && z == Pow((Log(x) + Log(y)) % 255)
    ensures z == Mul(x, y)
  {
    hide Mul, Pow;
    var n := Log(x) + Log(y);
    PowAdd(Log(x), Log(y));
    if n >= 510 { Wrap(n - 510); }
    if n >= 255 { Wrap(n - 255); }
  }

  lemma Wrap(n: nat)
    ensures Pow(n + 255) == Pow(n)
  {
    hide Mul, Pow;
    PowersTo255();
    PowAdd(n, 255);
    MulUnits(Pow(n));
  }

  // ----- the affine map -------------------------------------------------------------------

  const C63 := B(false, true, true, false, false, false, true, true)

  function Rotate(x: Byte): (r: Byte) { B(x.b6, x.b5, x.b4, x.b3, x.b2, x.b1, x.b0, x.b7) }

  /** The sum of several bytes. */
  function Sum(s: seq<Byte>): (r: Byte) { if s == [] then ZERO else Xor(Sum(s[..|s| - 1]), s[|s| - 1]) }

  /** A byte and its first six rotations. */
  function Rotations(x: Byte): (r: seq<Byte>)
    ensures |r| == 7
  {
    var y1 := Rotate(x);
    var y2 := Rotate(y1);
    var y3 := Rotate(y2);
    var y4 := Rotate(y3);
    var y5 := Rotate(y4);
    [x, y1, y2, y3, y4, y5, Rotate(y5)]
  }

  lemma RotationsAre(x: Byte)
    ensures Rotations(x)[0] == x
    ensures Rotations(x)[1] == B(x.b6, x.b5, x.b4, x.b3, x.b2, x.b1, x.b0, x.b7)
    ensures Rotations(x)[2] == B(x.b5, x.b4, x.b3, x.b2, x.b1, x.b0, x.b7, x.b6)
    ensures Rotations(x)[3] == B(x.b4, x.b3, x.b2, x.b1, x.b0, x.b7, x.b6, x.b5)
    ensures Rotations(x)[4] == B(x.b3, x.b2, x.b1, x.b0, x.b7, x.b6, x.b5, x.b4)
    ensures Rotations(x)[6] == B(x.b1, x.b0, x.b7, x.b6, x.b5, x.b4, x.b3, x.b2)
  {}

  function Linear(x: Byte): (r: Byte) { Sum(Rotations(x)[..5]) }

  function UnLinear(y: Byte): (r: Byte) { Sum([Rotations(y)[1], Rotations(y)[3], Rotations(y)[6]]) }

  lemma SumOfThree(a: Byte, b: Byte, c: Byte)
    ensures Sum([a, b, c]) == Xor(Xor(a, b), c)
  {
    XorZero(a);
    hide Xor;
    assert [a, b, c][..2] == [a, b] && [a, b][..1] == [a] && [a][..0] == [];
    assert Sum([a]) == Xor(Sum([]), a) && Sum([a, b]) == Xor(Sum([a]), b);
  }

  lemma SumOfFive(a: Byte, b: Byte, c: Byte, d: Byte, e: Byte)
    ensures Sum([a, b, c, d, e]) == Xor(Xor(Xor(Xor(a, b), c), d), e)
  {
    hide Xor;
    SumOfThree(a, b, c);
    assert [a, b, c, d, e][..4] == [a, b, c, d] && [a, b, c, d][..3] == [a, b, c];
    assert Sum([a, b, c, d]) == Xor(Sum([a, b, c]), d);
  }

  lemma LinearIs(x: Byte)
    ensures var s := Rotations(x); Linear(x) == Xor(Xor(Xor(Xor(s[0], s[1]), s[2]), s[3]), s[4])
    ensures Rotations(x)[0] == x
  {
    hide Xor;
    var s := Rotations(x);
    assert s[0] == x;
    hide Rotations;
    assert s[..5] == [s[0], s[1], s[2], s[3], s[4]];
    SumOfFive(s[0], s[1], s[2], s[3], s[4]);
  }

  function Parity5(a: bool, b: bool, c: bool, d: bool, e: bool): (r: bool) { (((a != b) != c) != d) != e }

  lemma LinearBits(x: Byte, y: Byte)
    requires y == Linear(x)
    ensures y.b0 == Parity5(x.b0, x.b7, x.b6, x.b5, x.b4) && y.b1 == Parity5(x.b1, x.b0, x.b7, x.b6, x.b5)
    ensures y.b2 == Parity5(x.b2, x.b1, x.b0, x.b7, x.b6) && y.b3 == Parity5(x.b3, x.b2, x.b1, x.b0, x.b7)
    ensures y.b4 == Parity5(x.b4, x.b3, x.b2, x.b1, x.b0) && y.b5 == Parity5(x.b5, x.b4, x.b3, x.b2, x.b1)
    ensures y.b6 == Parity5(x.b6, x.b5, x.b4, x.b3, x.b2) && y.b7 == Parity5(x.b7, x.b6, x.b5, x.b4, x.b3)
  {
    hide Linear, Rotations, Xor;
    LinearIs(x);
    RotationsAre(x);
    var s := Rotations(x);
    var a := Xor(s[0], s[1]);
    var b := Xor(a, s[2]);
    var c := Xor(b, s[3]);
    XorIs(s[0], s[1]);
    XorIs(a, s[2]);
    XorIs(b, s[3]);
    XorIs(c, s[4]);
  }

  /** Bit `a` of `UnLinear(Linear(x))`, the other bits upwards from `a` being b, c, ... h. */
  lemma BitReturns(a: bool, b: bool, c: bool, d: bool, e: bool, f: bool, g: bool, h: bool)
    ensures ((Parity5(h, g, f, e, d) != Parity5(f, e, d, c, b)) != Parity5(c, b, a, h, g)) == a
  {}

  lemma UnLinearLinear(x: Byte)
    ensures UnLinear(Linear(x)) == x
  {
    hide Linear, UnLinear, Parity5;
    LinearBits(x, Linear(x));
    UnLinearBits(Linear(x), UnLinear(Linear(x)));
    BitReturns(x.b0, x.b1, x.b2, x.b3, x.b4, x.b5, x.b6, x.b7);
    BitReturns(x.b1, x.b2, x.b3, x.b4, x.b5, x.b6, x.b7, x.b0);
    BitReturns(x.b2, x.b3, x.b4, x.b5, x.b6, x.b7, x.b0, x.b1);
    BitReturns(x.b3, x.b4, x.b5, x.b6, x.b7, x.b0, x.b1, x.b2);
    BitReturns(x.b4, x.b5, x.b6, x.b7, x.b0, x.b1, x.b2, x.b3);
    BitReturns(x.b5, x.b6, x.b7, x.b0, x.b1, x.b2, x.b3, x.b4);
    BitReturns(x.b6, x.b7, x.b0, x.b1, x.b2, x.b3, x.b4, x.b5);
    BitReturns(x.b7, x.b0, x.b1, x.b2, x.b3, x.b4, x.b5, x.b6);
  }

  lemma UnLinearBits(y: Byte, z: Byte)
    requires z == UnLinear(y)
    ensures z.b0 == ((y.b7 != y.b5) != y.b2) && z.b1 == ((y.b0 != y.b6) != y.b3)
    ensures z.b2 == ((y.b1 != y.b7) != y.b4) && z.b3 == ((y.b2 != y.b0) != y.b5)
    ensures z.b4 == ((y.b3 != y.b1) != y.b6) && z.b5 == ((y.b4 != y.b2) != y.b7)
    ensures z.b6 == ((y.b5 != y.b3) != y.b0) && z.b7 == ((y.b6 != y.b4) != y.b1)
  {
    hide Sum, Rotations, Xor;
    RotationsAre(y);
    var s := Rotations(y);
    SumOfThree(s[1], s[3], s[6]);
    XorIs(s[1], s[3]);
    XorIs(Xor(s[1], s[3]), s[6]);
  }

  /** Bit `a` of `Linear(UnLinear(y))`. */
  lemma BitReturnsBack(a: bool, b: bool, c: bool, d: bool, e: bool, f: bool, g: bool, h: bool)
    ensures Parity5((h != f) != c, (g != e) != b, (f != d) != a, (e != c) != h, (d != b) != g) == a
  {}

  lemma LinearUnLinear(y: Byte)
    ensures Linear(UnLinear(y)) == y
  {
    hide Linear, UnLinear, Parity5;
    var z := UnLinear(y);
    UnLinearBits(y, z);
    LinearBits(z, Linear(z));
    BitReturnsBack(y.b0, y.b1, y.b2, y.b3, y.b4, y.b5, y.b6, y.b7);
    BitReturnsBack(y.b1, y.b2, y.b3, y.b4, y.b5, y.b6, y.b7, y.b0);
    BitReturnsBack(y.b2, y.b3, y.b4, y.b5, y.b6, y.b7, y.b0, y.b1);
    BitReturnsBack(y.b3, y.b4, y.b5, y.b6, y.b7, y.b0, y.b1, y.b2);
    BitReturnsBack(y.b4, y.b5, y.b6, y.b7, y.b0, y.b1, y.b2, y.b3);
    BitReturnsBack(y.b5, y.b6, y.b7, y.b0, y.b1, y.b2, y.b3, y.b4);
    BitReturnsBack(y.b6, y.b7, y.b0, y.b1, y.b2, y.b3, y.b4, y.b5);
    BitReturnsBack(y.b7, y.b0, y.b1, y.b2, y.b3, y.b4, y.b5, y.b6);
  }

  // ----- the S-boxes ----------------------------------------------------------------------

  /** The forward S-box: inverse, then the affine map. */
  ghost function S(x: Byte): (r: Byte) { Xor(Linear(Inv(x)), C63) }

  /** The reverse S-box. */
  ghost function R(y: Byte): (r: Byte) { Inv(UnLinear(Xor(y, C63))) }

  /** The reverse S-box undoes the forward one. */
  lemma RS(x: Byte)
    ensures R(S(x)) == x
  {
    hide Linear, UnLinear, Xor, Inv;
    XorCancel(Linear(Inv(x)), C63);
    UnLinearLinear(Inv(x));
    InvInv(x);
  }

  lemma SR(y: Byte)
    ensures S(R(y)) == y
  {
    hide Linear, UnLinear, Xor, Inv;
    InvInv(UnLinear(Xor(y, C63)));
    LinearUnLinear(Xor(y, C63));
    XorCancel(y, C63);
  }
}
