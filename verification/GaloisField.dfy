/** The field of AES (section 4 of FIPS 197): bytes as polynomials over GF(2) modulo
    x^8 + x^4 + x^3 + x + 1, with 3 as generator. */
module GaloisField {
  /** A byte, most significant bit first. */
  datatype Byte = B(b7: bool, b6: bool, b5: bool, b4: bool, b3: bool, b2: bool, b1: bool, b0: bool)

  const ZERO := B(false, false, false, false, false, false, false, false)
  const ONE := B(false, false, false, false, false, false, false, true)

  /** The bits, least significant first. */
  function BitsOf(y: Byte): (r: seq<bool>)
    ensures |r| == 8
  {
    [y.b0, y.b1, y.b2, y.b3, y.b4, y.b5, y.b6, y.b7]
  }

  /** The byte with these bits. */
  function FromBits(s: seq<bool>): (r: Byte)
    requires |s| == 8
  {
    B(s[7], s[6], s[5], s[4], s[3], s[2], s[1], s[0])
  }

  function XorBits(s: seq<bool>, t: seq<bool>): (r: seq<bool>)
    requires |s| == |t|
    ensures |r| == |s|
  {
    if s == [] then [] else [s[0] != t[0]] + XorBits(s[1..], t[1..])
  }

  /** The sum of the field. */
  function Xor(x: Byte, y: Byte): (r: Byte) { FromBits(XorBits(BitsOf(x), BitsOf(y))) }

  /** `XTIME`: times x. */
  function XTime(x: Byte): (r: Byte) { Xor(Shift(x), If(x.b7, X8)) }

  function Shift(y: Byte): (r: Byte) { B(y.b6, y.b5, y.b4, y.b3, y.b2, y.b1, y.b0, false) }

  const X8 := B(false, false, false, true, true, false, true, true)  // x^8 reduced

  function If(on: bool, x: Byte): (r: Byte) { if on then x else ZERO }

  /** The product of the field: the sum of x^i times `x` over the bits i of `y` that are set. */
  function Mul(x: Byte, y: Byte): (r: Byte) { MulBits(x, BitsOf(y)) }

  /** The same for any sequence of bits, by Horner's rule. */
  function MulBits(x: Byte, s: seq<bool>): (r: Byte) {
    if s == [] then ZERO else Stage(s[0], x, MulBits(x, s[1..]))
  }

  function Stage(on: bool, x: Byte, higher: Byte): (r: Byte) { Xor(If(on, x), XTime(higher)) }

  /** The powers of the generator, by the step of the table generator's loop. */
  function Pow(i: nat): (r: Byte) { if i == 0 then ONE else Xor(Pow(i - 1), XTime(Pow(i - 1))) }

  // ----- addition and multiplication by x -------------------------------------------------

  lemma {:induction false} XorBitsAt(s: seq<bool>, t: seq<bool>, i: nat)
    requires |s| == |t| && i < |s|
    ensures XorBits(s, t)[i] == (s[i] != t[i])
  {
    if i > 0 { XorBitsAt(s[1..], t[1..], i - 1); }
  }

  /** Sum and product once more, all their bits at a time. */
  function PlainXor(x: Byte, y: Byte): (r: Byte) {
    B(x.b7 != y.b7, x.b6 != y.b6, x.b5 != y.b5, x.b4 != y.b4, x.b3 != y.b3, x.b2 != y.b2, x.b1 != y.b1, x.b0 != y.b0)
  }

  function PlainTime(x: Byte): (r: Byte) {
    B(x.b6, x.b5, x.b4, x.b3 != x.b7, x.b2 != x.b7, x.b1, x.b0 != x.b7, x.b7)
  }

  lemma XorIs(x: Byte, y: Byte)
    ensures Xor(x, y) == PlainXor(x, y)
  {
    hide XorBits;
    var s, t := BitsOf(x), BitsOf(y);
    XorBitsAt(s, t, 0);
    XorBitsAt(s, t, 1);
    XorBitsAt(s, t, 2);
    XorBitsAt(s, t, 3);
    XorBitsAt(s, t, 4);
    XorBitsAt(s, t, 5);
    XorBitsAt(s, t, 6);
    XorBitsAt(s, t, 7);
  }

  lemma XTimeIs(x: Byte)
    ensures XTime(x) == PlainTime(x)
  {
    hide Xor;
    XorIs(Shift(x), If(x.b7, X8));
  }

  lemma XorComm(x: Byte, y: Byte)
    ensures Xor(x, y) == Xor(y, x)
  {
    hide Xor;
    XorIs(x, y);
    XorIs(y, x);
  }

  lemma {:induction false} XorBitsAssoc(s: seq<bool>, t: seq<bool>, u: seq<bool>)
    requires |s| == |t| == |u|
    ensures XorBits(XorBits(s, t), u) == XorBits(s, XorBits(t, u))
  {
    if s != [] {
      XorBitsAssoc(s[1..], t[1..], u[1..]);
      assert XorBits(s, t)[1..] == XorBits(s[1..], t[1..]) && XorBits(t, u)[1..] == XorBits(t[1..], u[1..]);
    }
  }

  lemma BitsBack(s: seq<bool>)
    requires |s| == 8
    ensures BitsOf(FromBits(s)) == s
  {}

  lemma XorAssoc(x: Byte, y: Byte, z: Byte)
    ensures Xor(Xor(x, y), z) == Xor(x, Xor(y, z))
  {
    hide XorBits, FromBits, BitsOf;
    XorBitsAssoc(BitsOf(x), BitsOf(y), BitsOf(z));
    BitsBack(XorBits(BitsOf(x), BitsOf(y)));
    BitsBack(XorBits(BitsOf(y), BitsOf(z)));
  }

  lemma XorZero(x: Byte)
    ensures Xor(x, ZERO) == x && Xor(ZERO, x) == x && Xor(x, x) == ZERO
  {
    hide Xor;
    XorIs(x, ZERO);
    XorIs(ZERO, x);
    XorIs(x, x);
  }

  lemma XorCancel(x: Byte, y: Byte)
    ensures Xor(Xor(x, y), y) == x
  {
    hide Xor;
    XorAssoc(x, y, y);
    XorZero(y);
    XorZero(x);
  }

  lemma XorInterchange(a: Byte, b: Byte, c: Byte, d: Byte)
    ensures Xor(Xor(a, b), Xor(c, d)) == Xor(Xor(a, c), Xor(b, d))
  {
    hide Xor;
    XorAssoc(a, b, Xor(c, d));
    XorAssoc(b, c, d);
    XorComm(b, c);
    XorAssoc(c, b, d);
    XorAssoc(a, c, Xor(b, d));
  }

  lemma XTimeXor(x: Byte, y: Byte)
    ensures XTime(Xor(x, y)) == Xor(XTime(x), XTime(y))
  {
    hide Xor, XTime;
    XorIs(x, y);
    XTimeIs(x);
    XTimeIs(y);
    XTimeIs(Xor(x, y));
    XorIs(XTime(x), XTime(y));
  }

  function XTimes(n: nat, x: Byte): (r: Byte) { if n == 0 then x else XTime(XTimes(n - 1, x)) }

  ghost predicate IsCubeTimes(x: Byte, r: Byte) {
    && r.b7 == x.b4 && r.b6 == (x.b7 != x.b3) && r.b5 == ((x.b7 != x.b6) != x.b2)
    && r.b4 == ((x.b6 != x.b5) != x.b1) && r.b3 == ((x.b7 != x.b5) != x.b0)
    && r.b2 == (x.b7 != x.b6) && r.b1 == (x.b6 != x.b5) && r.b0 == x.b5
  }

  ghost predicate IsFourthTimes(x: Byte, r: Byte) {
    && r.b7 == (x.b7 != x.b3) && r.b6 == ((x.b7 != x.b6) != x.b2) && r.b5 == ((x.b6 != x.b5) != x.b1)
    && r.b4 == (((x.b7 != x.b5) != x.b4) != x.b0) && r.b3 == ((x.b7 != x.b6) != x.b4)
    && r.b2 == (x.b6 != x.b5) && r.b1 == (x.b5 != x.b4) && r.b0 == x.b4
  }

  lemma CubeAndFourth(x: Byte, w: Byte, r: Byte)
    requires w == XTime(XTime(XTime(x))) && r == XTime(w)
    ensures IsCubeTimes(x, w) && IsFourthTimes(x, r)
  {
    hide XTime;
    XTimeIs(x);
    XTimeIs(XTime(x));
    XTimeIs(XTime(XTime(x)));
    XTimeIs(w);
  }

  lemma RelationBits(x: Byte, w: Byte, y: Byte, z: Byte)
    requires IsCubeTimes(x, w) && IsFourthTimes(x, y) && IsFourthTimes(y, z)
    ensures z == Xor(Xor(y, w), Xor(XTime(x), x))
  {
    hide Xor, XTime;
    XTimeIs(x);
    XorIs(y, w);
    XorIs(XTime(x), x);
    XorIs(Xor(y, w), Xor(XTime(x), x));
  }

  /** The defining relation of the field: x^8 is x^4 + x^3 + x + 1. */
  lemma Relation(x: Byte)
    ensures XTimes(8, x) == Xor(Xor(XTimes(4, x), XTimes(3, x)), Xor(XTime(x), x))
  {
    var w := XTime(XTime(XTime(x)));
    var y := XTime(w);
    var v := XTime(XTime(XTime(y)));
    hide XTime, Xor;
    assert XTimes(1, x) == XTime(x) && XTimes(2, x) == XTime(XTime(x));
    assert XTimes(3, x) == w && XTimes(4, x) == y && XTimes(5, x) == XTime(y);
    assert XTimes(6, x) == XTime(XTime(y)) && XTimes(7, x) == v && XTimes(8, x) == XTime(v);
    CubeAndFourth(x, w, y);
    CubeAndFourth(y, v, XTime(v));
    RelationBits(x, w, y, XTime(v));
  }

  // ----- multiplication -------------------------------------------------------------------

  lemma IfXor(c: bool, a: bool, b: bool, x: Byte)
    requires c == (a != b)
    ensures If(c, x) == Xor(If(a, x), If(b, x))
  {
    hide Xor;
    XorZero(x);
    XorZero(ZERO);
  }

  lemma StageXor(c: bool, a: bool, b: bool, x: Byte, p: Byte, q: Byte)
    requires c == (a != b)
    ensures Stage(c, x, Xor(p, q)) == Xor(Stage(a, x, p), Stage(b, x, q))
  {
    hide Xor, XTime, If;
    IfXor(c, a, b, x);
    XTimeXor(p, q);
    XorInterchange(If(a, x), If(b, x), XTime(p), XTime(q));
  }

  /** Multiplication distributes over addition. */
  lemma MulXor(x: Byte, y: Byte, z: Byte)
    ensures Mul(x, Xor(y, z)) == Xor(Mul(x, y), Mul(x, z))
  {
    var u := Xor(y, z);
    BitsXor(y, z);
    hide Xor, Mul, Stage;
    MulIs(x, y);
    MulIs(x, z);
    MulIs(x, u);
    XorZero(ZERO);
    var p := Stage(y.b4, x, Stage(y.b5, x, Stage(y.b6, x, Stage(y.b7, x, ZERO))));
    var q := Stage(z.b4, x, Stage(z.b5, x, Stage(z.b6, x, Stage(z.b7, x, ZERO))));
    StagesXor(x, y.b4, y.b5, y.b6, y.b7, z.b4, z.b5, z.b6, z.b7, ZERO, ZERO);
    StagesXor(x, y.b0, y.b1, y.b2, y.b3, z.b0, z.b1, z.b2, z.b3, p, q);
  }

  lemma BitsXor(y: Byte, z: Byte)
    ensures var u := Xor(y, z);
            && u.b0 == (y.b0 != z.b0) && u.b1 == (y.b1 != z.b1) && u.b2 == (y.b2 != z.b2) && u.b3 == (y.b3 != z.b3)
            && u.b4 == (y.b4 != z.b4) && u.b5 == (y.b5 != z.b5) && u.b6 == (y.b6 != z.b6) && u.b7 == (y.b7 != z.b7)
  {
    XorIs(y, z);
  }

  lemma StagesXor(x: Byte, y0: bool, y1: bool, y2: bool, y3: bool, z0: bool, z1: bool, z2: bool, z3: bool,
                  p: Byte, q: Byte)
    ensures Stage(y0 != z0, x, Stage(y1 != z1, x, Stage(y2 != z2, x, Stage(y3 != z3, x, Xor(p, q)))))
         == Xor(Stage(y0, x, Stage(y1, x, Stage(y2, x, Stage(y3, x, p)))),
                Stage(z0, x, Stage(z1, x, Stage(z2, x, Stage(z3, x, q)))))
  {
    hide Xor, Stage;
    var p3, q3 := Stage(y3, x, p), Stage(z3, x, q);
    var p2, q2 := Stage(y2, x, p3), Stage(z2, x, q3);
    var p1, q1 := Stage(y1, x, p2), Stage(z1, x, q2);
    StageXor(y3 != z3, y3, z3, x, p, q);
    StageXor(y2 != z2, y2, z2, x, p3, q3);
    StageXor(y1 != z1, y1, z1, x, p2, q2);
    StageXor(y0 != z0, y0, z0, x, p1, q1);
  }

  /** All eight stages. */
  lemma MulIs(x: Byte, y: Byte)
    ensures Mul(x, y) == Stage(y.b0, x, Stage(y.b1, x, Stage(y.b2, x, Stage(y.b3, x,
                         Stage(y.b4, x, Stage(y.b5, x, Stage(y.b6, x, Stage(y.b7, x, ZERO))))))))
  {
    hide Stage, MulBits;
    var s := BitsOf(y);
    FourStages(x, s);
    FourStages(x, s[4..]);
    assert MulBits(x, s[4..][4..]) == ZERO by { assert s[4..][4..] == []; NoBits(x); }
  }

  lemma NoBits(x: Byte)
    ensures MulBits(x, []) == ZERO
  {}

  lemma FourStages(x: Byte, s: seq<bool>)
    requires |s| >= 4
    ensures MulBits(x, s) == Stage(s[0], x, Stage(s[1], x, Stage(s[2], x, Stage(s[3], x, MulBits(x, s[4..])))))
  {
    hide Stage;
    assert s[1..][1..] == s[2..] && s[2..][1..] == s[3..] && s[3..][1..] == s[4..];
    assert MulBits(x, s[1..]) == Stage(s[1], x, MulBits(x, s[2..]));
    assert MulBits(x, s[2..]) == Stage(s[2], x, MulBits(x, s[3..]));
    assert MulBits(x, s[3..]) == Stage(s[3], x, MulBits(x, s[4..]));
  }

  // ----- bytes as bit vectors -------------------------------------------------------------

  /** The byte that a constant stands for. */
  function Hex(x: bv8): (r: Byte) { FromBits(LowBits(x, |BitsOf(ZERO)|)) }

  function LowBits(x: bv8, n: nat): (r: seq<bool>)
    ensures |r| == n
    decreases n
  {
    if n == 0 then [] else [x & 1 != 0] + LowBits(x >> 1, n - 1)
  }

  lemma LowBitsNext(x: bv8, n: nat)
    requires n > 0
    ensures LowBits(x, n)[0] == (x & 1 != 0) && LowBits(x, n)[1..] == LowBits(x >> 1, n - 1)
  {}

  lemma HexIs(x: bv8)
    ensures Hex(x) == B(x & 0x80 != 0, x & 0x40 != 0, x & 0x20 != 0, x & 0x10 != 0,
                        x & 0x08 != 0, x & 0x04 != 0, x & 0x02 != 0, x & 0x01 != 0)
  {
    hide LowBits;
    FourLowBits(x, 8);
    FourLowBits(x >> 4, 4);
    Halves(x);
  }

  lemma FourLowBits(x: bv8, n: nat)
    requires n >= 4
    ensures var s := LowBits(x, n);
            && s[0] == (x & 1 != 0) && s[1] == (x & 2 != 0) && s[2] == (x & 4 != 0) && s[3] == (x & 8 != 0)
            && s[4..] == LowBits(x >> 4, n - 4)
  {
    hide LowBits;
    var s := LowBits(x, n);
    LowBitsNext(x, n);
    LowBitsNext(x >> 1, n - 1);
    LowBitsNext((x >> 1) >> 1, n - 2);
    LowBitsNext(((x >> 1) >> 1) >> 1, n - 3);
    Shifts(x);
    assert s[1..][1..][1..][1..] == s[4..];
    assert s[1] == s[1..][0] && s[2] == s[1..][1..][0] && s[3] == s[1..][1..][1..][0];
  }

  lemma Shifts(x: bv8)
    ensures (x >> 1) & 1 != 0 <==> x & 2 != 0
    ensures ((x >> 1) >> 1) & 1 != 0 <==> x & 4 != 0
    ensures (((x >> 1) >> 1) >> 1) & 1 != 0 <==> x & 8 != 0
    ensures (((x >> 1) >> 1) >> 1) >> 1 == x >> 4
  {}

  lemma Halves(x: bv8)
    ensures (x >> 4) & 1 != 0 <==> x & 0x10 != 0
    ensures (x >> 4) & 2 != 0 <==> x & 0x20 != 0
    ensures (x >> 4) & 4 != 0 <==> x & 0x40 != 0
    ensures (x >> 4) & 8 != 0 <==> x & 0x80 != 0
  {}

  lemma ZeroHex()
    ensures Hex(0) == ZERO && Hex(1) == ONE
  {
    hide Hex;
    HexIs(0);
    HexIs(1);
  }

  function BXor(x: bv8, y: bv8): (r: bv8) { x ^ y }

  function BTime(x: bv8): (r: bv8) { if x & 0x80 != 0 then (x << 1) ^ 0x1b else x << 1 }

  function BStage(on: bool, x: bv8, higher: bv8): (r: bv8) { BXor(if on then x else 0, BTime(higher)) }

  function BMul(x: bv8, y: bv8): (r: bv8) {
    BStage(y & 0x01 != 0, x, BStage(y & 0x02 != 0, x, BStage(y & 0x04 != 0, x, BStage(y & 0x08 != 0, x,
    BStage(y & 0x10 != 0, x, BStage(y & 0x20 != 0, x, BStage(y & 0x40 != 0, x, BStage(y & 0x80 != 0, x, 0))))))))
  }

  lemma XorHex(x: bv8, y: bv8)
    ensures Xor(Hex(x), Hex(y)) == Hex(BXor(x, y))
  {
    hide Xor, Hex;
    HexIs(x);
    HexIs(y);
    HexIs(BXor(x, y));
    XorIs(Hex(x), Hex(y));
  }

  lemma TimeHex(x: bv8)
    ensures XTime(Hex(x)) == Hex(BTime(x))
  {
    hide XTime, Hex;
    HexIs(x);
    HexIs(BTime(x));
    XTimeIs(Hex(x));
  }

  lemma StageHex(on: bool, x: bv8, higher: bv8)
    ensures Stage(on, Hex(x), Hex(higher)) == Hex(BStage(on, x, higher))
  {
    hide Hex, Xor, XTime, BXor, BTime;
    TimeHex(higher);
    ZeroHex();
    XorHex(if on then x else 0, BTime(higher));
  }

  lemma MulHex(x: bv8, y: bv8)
    ensures Mul(Hex(x), Hex(y)) == Hex(BMul(x, y))
  {
    hide Mul, Stage, BStage, Hex;
    MulIs(Hex(x), Hex(y));
    HexIs(y);
    ZeroHex();
    var h7 := BStage(y & 0x80 != 0, x, 0);
    var h6 := BStage(y & 0x40 != 0, x, h7);
    var h5 := BStage(y & 0x20 != 0, x, h6);
    var h4 := BStage(y & 0x10 != 0, x, h5);
    var h3 := BStage(y & 0x08 != 0, x, h4);
    var h2 := BStage(y & 0x04 != 0, x, h3);
    var h1 := BStage(y & 0x02 != 0, x, h2);
    StageHex(y & 0x80 != 0, x, 0);
    StageHex(y & 0x40 != 0, x, h7);
    StageHex(y & 0x20 != 0, x, h6);
    StageHex(y & 0x10 != 0, x, h5);
    StageHex(y & 0x08 != 0, x, h4);
    StageHex(y & 0x04 != 0, x, h3);
    StageHex(y & 0x02 != 0, x, h2);
    StageHex(y & 0x01 != 0, x, h1);
  }

  lemma StageOff(x: Byte, p: Byte)
    ensures Stage(false, x, p) == XTime(p) && Stage(true, x, p) == Xor(x, XTime(p)) && XTime(ZERO) == ZERO
  {
    XorZero(XTime(p));
  }

  lemma MulUnits(x: Byte)
    ensures Mul(x, ONE) == x && Mul(x, ZERO) == ZERO
  {
    hide Stage, Xor, XTime, Mul;
    MulIs(x, ONE);
    MulIs(x, ZERO);
    StageOff(x, ZERO);
    XorZero(x);
  }

  const X7 := B(true, false, false, false, false, false, false, false)

  function Low(y: Byte): (r: Byte) { y.(b7 := false) }

  lemma SplitTop(y: Byte)
    ensures XTime(y) == Xor(Shift(y), If(y.b7, X8)) && y == Xor(Low(y), If(y.b7, X7))
  {
    hide Xor;
    XorIs(Low(y), If(y.b7, X7));
  }

  /** Multiplying the second factor by x multiplies the product by x. */
  lemma MulXTime(x: Byte, y: Byte)
    ensures Mul(x, XTime(y)) == XTime(Mul(x, y))
  {
    SplitTop(y);
    MulShift(x, y);
    MulTop(x, y.b7);
    hide Mul, Xor, XTime, If, Low, Shift;
    MulXor(x, Shift(y), If(y.b7, X8));
    MulXor(x, Low(y), If(y.b7, X7));
    XTimeXor(Mul(x, Low(y)), Mul(x, If(y.b7, X7)));
  }

  lemma MulShift(x: Byte, y: Byte)
    ensures Mul(x, Shift(y)) == XTime(Mul(x, Low(y)))
  {
    hide Stage, Xor, XTime, Mul;
    MulIs(x, Shift(y));
    MulIs(x, Low(y));
    StageOff(x, ZERO);
    StageOff(x, Mul(x, Low(y)));
  }

  lemma MulTop(x: Byte, on: bool)
    ensures Mul(x, If(on, X8)) == XTime(Mul(x, If(on, X7)))
  {
    hide Mul;
    if on { MulTopOn(x); } else { MulUnits(x); StageOff(x, ZERO); }
  }

  lemma MulTopOn(x: Byte)
    ensures Mul(x, X8) == XTime(Mul(x, X7))
  {
    hide Xor, XTime, XTimes, Mul;
    MulX7(x);
    MulX8(x);
    Relation(x);
  }

  lemma EightXTimes(x: Byte)
    ensures XTimes(8, x) == XTime(XTime(XTime(XTime(XTimes(4, x)))))
  {
    hide XTime;
    assert XTimes(5, x) == XTime(XTimes(4, x));
    assert XTimes(6, x) == XTime(XTimes(5, x));
    assert XTimes(7, x) == XTime(XTimes(6, x));
  }

  /** One set bit, moved up seven times. */
  lemma MulX7(x: Byte)
    ensures XTime(Mul(x, X7)) == XTimes(8, x)
  {
    hide Xor, XTime, Stage, XTimes, Mul;
    var x1 := XTime(x);
    var x2 := XTime(x1);
    var x3 := XTime(x2);
    var x4 := XTime(x3);
    FewXTimes(x, x1, x2, x3, x4);
    EightXTimes(x);
    StageOff(x, ZERO);
    XorZero(x);
    StageOff(x, x);
    StageOff(x, x1);
    StageOff(x, x2);
    MulIs(x, X7);
    StageOff(x, x3);
    StageOff(x, x4);
    StageOff(x, XTime(x4));
    StageOff(x, XTime(XTime(x4)));
  }

  lemma FewXTimes(x: Byte, x1: Byte, x2: Byte, x3: Byte, x4: Byte)
    requires x1 == XTime(x) && x2 == XTime(x1) && x3 == XTime(x2) && x4 == XTime(x3)
    ensures XTimes(3, x) == x3 && XTimes(4, x) == x4
  {
    hide XTime, XTimes;
    XTimesNext(0, x);
    XTimesNext(1, x);
    XTimesNext(2, x);
    XTimesNext(3, x);
  }

  lemma XTimesNext(n: nat, x: Byte)
    ensures XTimes(0, x) == x && XTimes(n + 1, x) == XTime(XTimes(n, x))
  {}

  lemma MulX8(x: Byte)
    ensures Mul(x, X8) == Xor(Xor(XTimes(4, x), XTimes(3, x)), Xor(XTime(x), x))
  {
    hide Xor, XTime, Stage, XTimes, Mul;
    var x1 := XTime(x);
    var x2 := XTime(x1);
    var x3 := XTime(x2);
    var x4 := XTime(x3);
    FewXTimes(x, x1, x2, x3, x4);
    StageOff(x, ZERO);
    XorZero(x);
    var p4 := Stage(true, x, ZERO);
    assert p4 == x;
    var p3 := Stage(true, x, p4);
    StageOff(x, p4);
    assert p3 == Xor(x, x1);
    var p2 := Stage(false, x, p3);
    StageOff(x, p3);
    XTimeXor(x, x1);
    assert p2 == Xor(x1, x2);
    var p1 := Stage(true, x, p2);
    StageOff(x, p2);
    XTimeXor(x1, x2);
    assert p1 == Xor(x, Xor(x2, x3));
    StageOff(x, p1);
    XTimeXor(x, Xor(x2, x3));
    XTimeXor(x2, x3);
    MulIs(x, X8);
    Rearrange(x, x1, x3, x4);
  }

  lemma Rearrange(x: Byte, x1: Byte, x3: Byte, x4: Byte)
    ensures Xor(x, Xor(x1, Xor(x3, x4))) == Xor(Xor(x4, x3), Xor(x1, x))
  {
    hide Xor;
    XorAssoc(x, x1, Xor(x3, x4));
    XorComm(x, x1);
    XorComm(x3, x4);
    XorComm(Xor(x1, x), Xor(x4, x3));
  }

  /** Exponents add. */
  lemma {:induction false} PowAdd(i: nat, j: nat)
    ensures Pow(i + j) == Mul(Pow(i), Pow(j))
  {
    hide Xor, XTime, Mul;
    if j == 0 {
      MulUnits(Pow(i));
    } else {
      PowAdd(i, j - 1);
      MulXor(Pow(i), Pow(j - 1), XTime(Pow(j - 1)));
      MulXTime(Pow(i), Pow(j - 1));
    }
  }

  // ----- the order of the generator -------------------------------------------------------

  /** A power of 3 from two others. */
  lemma Product(i: nat, j: nat, x: bv8, y: bv8, z: bv8)
    requires Pow(i) == Hex(x) && Pow(j) == Hex(y) && BMul(x, y) == z
    ensures Pow(i + j) == Hex(z)
  {
    hide Pow, Mul, Hex, BMul;
    PowAdd(i, j);
    MulHex(x, y);
  }

  lemma FirstPower()
    ensures Pow(1) == Hex(3)
  {
    hide Xor, XTime, Hex;
    assert Pow(0) == ONE;
    ZeroHex();
    TimeHex(1);
    XorHex(1, 2);
  }

  lemma PowersTo16()
    ensures Pow(1) == Hex(0x03) && Pow(2) == Hex(0x05) && Pow(4) == Hex(0x11) && Pow(8) == Hex(0x1a)
            && Pow(16) == Hex(0x5f)
  {
    hide Pow, Hex;
    FirstPower();
    Product(1, 1, 0x03, 0x03, 0x05);
    Product(2, 2, 0x05, 0x05, 0x11);
    Product(4, 4, 0x11, 0x11, 0x1a);
    Product(8, 8, 0x1a, 0x1a, 0x5f);
  }

  lemma PowersTo64()
    ensures Pow(32) == Hex(0xe5) && Pow(64) == Hex(0x4c)
  {
    hide Pow, Hex;
    PowersTo16();
    Product(16, 16, 0x5f, 0x5f, 0xe5);
    Product(32, 32, 0xe5, 0xe5, 0x4c);
  }

  lemma PowersTo15()
    ensures Pow(3) == Hex(0x0f) && Pow(12) == Hex(0xa1) && Pow(15) == Hex(0x35)
  {
    hide Pow, Hex;
    PowersTo16();
    Product(1, 2, 0x03, 0x05, 0x0f);
    Product(4, 8, 0x11, 0x1a, 0xa1);
    Product(3, 12, 0x0f, 0xa1, 0x35);
  }

  lemma PowersTo51()
    ensures Pow(51) == Hex(0x0c)
  {
    hide Pow, Hex;
    PowersTo64();
    PowersTo16();
    PowersTo15();
    Product(16, 32, 0x5f, 0xe5, 0x53);
    Product(3, 48, 0x0f, 0x53, 0x0c);
  }

  lemma PowersTo85()
    ensures Pow(85) == Hex(0xbd)
  {
    hide Pow, Hex;
    PowersTo64();
    PowersTo16();
    Product(1, 4, 0x03, 0x11, 0x33);
    Product(16, 64, 0x5f, 0x4c, 0x83);
    Product(5, 80, 0x33, 0x83, 0xbd);
  }

  lemma PowersTo255()
    ensures Pow(255) == ONE
  {
    hide Pow, Hex;
    PowersTo64();
    PowersTo51();
    PowersTo15();
    Product(64, 64, 0x4c, 0x4c, 0xfb);
    Product(128, 64, 0xfb, 0x4c, 0xfc);
    Product(192, 51, 0xfc, 0x0c, 0x7c);
    Product(243, 12, 0x7c, 0xa1, 1);
    ZeroHex();
  }

  lemma StepInjective(x: Byte)
    ensures Xor(x, XTime(x)) == ZERO ==> x == ZERO
  {
    hide Xor, XTime;
    XTimeIs(x);
    XorIs(x, XTime(x));
  }

  lemma {:induction false} PowNonzero(i: nat)
    ensures Pow(i) != ZERO
  {
    hide Xor, XTime;
    if i > 0 {
      PowNonzero(i - 1);
      StepInjective(Pow(i - 1));
    }
  }

  /** Once a power is 1, powers repeat with that period. */
  lemma {:induction false} PowPeriod(g: nat, n: nat) returns (q: nat, r: nat)
    requires 0 < g && Pow(g) == ONE
    ensures n == g * q + r && r < g && Pow(n) == Pow(r)
    decreases n
  {
    hide Mul, Pow;
    if n < g {
      q, r := 0, n;
    } else {
      PowAdd(n - g, g);
      MulUnits(Pow(n - g));
      q, r := PowPeriod(g, n - g);
      assert g * (q + 1) == g * q + g;
      q := q + 1;
    }
  }

  lemma {:induction false} PowMultiple(g: nat, q: nat, n: nat)
    requires Pow(g) == ONE && g * q == n
    ensures Pow(n) == ONE
    decreases q
  {
    hide Mul, Pow;
    if q == 0 {
      PowNone();
    } else {
      OneLess(g, q, n);
      PowMultiple(g, q - 1, n - g);
      PowAdd(n - g, g);
      MulUnits(ONE);
    }
  }

  lemma PowNone()
    ensures Pow(0) == ONE
  {}

  lemma OneLess(g: nat, q: nat, n: nat)
    requires g * q == n && q > 0
    ensures n >= g && g * (q - 1) == n - g
  {}

  lemma {:induction false} LeastPeriod(k: nat) returns (g: nat)
    requires k > 0 && Pow(k) == ONE
    ensures 0 < g <= k && Pow(g) == ONE && forall j :: 0 < j < g ==> Pow(j) != ONE
  {
    if j :| 0 < j < k && Pow(j) == ONE { g := LeastPeriod(j); } else { g := k; }
  }

  /** A proper divisor of 255 = 3 * 5 * 17 divides 15, 51 or 85. */
  lemma ProperDivisor(g: nat, q: nat) returns (m: nat, n: nat)
    requires g * q == 255 && 1 < q
    ensures g * m == n && (n == 15 || n == 51 || n == 85)
  {
    if q <= 16 { SmallFactor(q, g); } else { SmallFactor(g, q); }
    if q % 17 == 0 { m, n := q / 17, 15; } else if q == 15 { m, n := 3, 51; } else { m, n := 1, g; }
  }

  lemma SmallFactor(f: nat, h: nat)
    requires f * h == 255 && f <= 16
    ensures (f == 1 && h == 255) || (f == 3 && h == 85) || (f == 5 && h == 51) || (f == 15 && h == 17)
  {
    assert f != 0 && f != 2 && f != 4 && f != 6 && f != 7 && f != 8 && f != 9 && f != 10;
    assert f != 11 && f != 12 && f != 13 && f != 14 && f != 16;
  }

  /** 3 generates all 255 nonzero bytes: no earlier power is 1. */
  lemma Order(k: nat)
    requires 0 < k < 255
    ensures Pow(k) != ONE
  {
    if Pow(k) == ONE {
      hide Pow;
      var g := LeastPeriod(k);
      var q := PeriodDivides(g);
      SmallPeriods(g, q);
      assert false;
    }
  }

  /** A least period below 255 divides 255. */
  lemma PeriodDivides(g: nat) returns (q: nat)
    requires 0 < g < 255 && Pow(g) == ONE && forall j :: 0 < j < g ==> Pow(j) != ONE
    ensures g * q == 255 && 1 < q
  {
    hide Pow;
    PowersTo255();
    var r;
    q, r := PowPeriod(g, 255);
  }

  lemma NotOne(n: nat)
    requires n == 15 || n == 51 || n == 85
    ensures Pow(n) != ONE
  {
    hide Pow, Hex;
    PowersTo15();
    PowersTo51();
    PowersTo85();
    HexIs(0x35);
    HexIs(0x0c);
    HexIs(0xbd);
  }

  /** No proper divisor of 255 is a period. */
  lemma SmallPeriods(g: nat, q: nat)
    requires g * q == 255 && 1 < q
    ensures Pow(g) != ONE
  {
    hide Pow;
    var m, n := ProperDivisor(g, q);
    NotOne(n);
    if Pow(g) == ONE { PowMultiple(g, m, n); }
  }
}
