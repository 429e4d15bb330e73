/** The AES cipher and its equivalent inverse cipher (sections 5.1 and 5.3.5 of FIPS 197) on
    columns, for any round keys. */
module AesCipher {
  import opened GaloisField
  import opened SBox
  import opened AesTables

  // ----- columns --------------------------------------------------------------------------

  const NONE := W(ZERO, ZERO, ZERO, ZERO)

  lemma XorWAssoc(u: Word, v: Word, w: Word)
    ensures XorW(XorW(u, v), w) == XorW(u, XorW(v, w))
  {
    hide Xor;
    XorAssoc(u.a, v.a, w.a);
    XorAssoc(u.b, v.b, w.b);
    XorAssoc(u.c, v.c, w.c);
    XorAssoc(u.d, v.d, w.d);
  }

  lemma XorWComm(u: Word, v: Word)
    ensures XorW(u, v) == XorW(v, u)
  {
    hide Xor;
    XorComm(u.a, v.a);
    XorComm(u.b, v.b);
    XorComm(u.c, v.c);
    XorComm(u.d, v.d);
  }

  lemma XorWCancel(u: Word, v: Word)
    ensures XorW(u, XorW(u, v)) == v && XorW(u, NONE) == u && XorW(NONE, u) == u
  {
    hide Xor;
    BytesCancel(u.a, v.a);
    BytesCancel(u.b, v.b);
    BytesCancel(u.c, v.c);
    BytesCancel(u.d, v.d);
  }

  lemma BytesCancel(x: Byte, y: Byte)
    ensures Xor(x, Xor(x, y)) == y && Xor(x, ZERO) == x && Xor(ZERO, x) == x
  {
    hide Xor;
    XorAssoc(x, x, y);
    XorZero(x);
    XorZero(y);
  }

  lemma XorWInterchange(a: Word, b: Word, c: Word, d: Word)
    ensures XorW(XorW(a, b), XorW(c, d)) == XorW(XorW(a, c), XorW(b, d))
  {
    hide Xor;
    XorInterchange(a.a, b.a, c.a, d.a);
    XorInterchange(a.b, b.b, c.b, d.b);
    XorInterchange(a.c, b.c, c.c, d.c);
    XorInterchange(a.d, b.d, c.d, d.d);
  }

  /** MixColumns and InvMixColumns on one column: each byte contributes a rotated column. */
  function Mix(w: Word): (r: Word) {
    XorW(XorW(XorW(MixByte(w.a), Rotr8(MixByte(w.b))), Rotr8(Rotr8(MixByte(w.c)))),
         Rotr8(Rotr8(Rotr8(MixByte(w.d)))))
  }

  function InvMix(w: Word): (r: Word) {
    XorW(XorW(XorW(InvMixByte(w.a), Rotr8(InvMixByte(w.b))), Rotr8(Rotr8(InvMixByte(w.c)))),
         Rotr8(Rotr8(Rotr8(InvMixByte(w.d)))))
  }

  /** The matrix form of section 5.1.3: 02 03 01 01, rotated from row to row. */
  lemma MixIsMatrix(w: Word)
    ensures Mix(w).a == Xor(Xor(Xor(XTime(w.a), Xor(w.b, XTime(w.b))), w.c), w.d)
    ensures Mix(w).b == Xor(Xor(Xor(w.a, XTime(w.b)), Xor(w.c, XTime(w.c))), w.d)
    ensures Mix(w).c == Xor(Xor(Xor(w.a, w.b), XTime(w.c)), Xor(w.d, XTime(w.d)))
    ensures Mix(w).d == Xor(Xor(Xor(Xor(w.a, XTime(w.a)), w.b), w.c), XTime(w.d))
  {
    hide Xor, XTime;
  }

  lemma InvMixByteLinear(x: Byte, y: Byte)
    ensures InvMixByte(Xor(x, y)) == XorW(InvMixByte(x), InvMixByte(y))
  {
    hide Mul, Xor;
    MulXor(C0E, x, y);
    MulXor(C09, x, y);
    MulXor(C0D, x, y);
    MulXor(C0B, x, y);
  }

  lemma RotrXor(u: Word, v: Word)
    ensures Rotr8(XorW(u, v)) == XorW(Rotr8(u), Rotr8(v))
  {
    hide Xor;
  }

  lemma InvMixLinear(u: Word, v: Word)
    ensures InvMix(XorW(u, v)) == XorW(InvMix(u), InvMix(v))
  {
    hide InvMixByte, Xor, Rotr8;
    InvMixByteLinear(u.a, v.a);
    InvMixByteLinear(u.b, v.b);
    InvMixByteLinear(u.c, v.c);
    InvMixByteLinear(u.d, v.d);
    var p0, q0 := InvMixByte(u.a), InvMixByte(v.a);
    var p1, q1 := Rotr8(InvMixByte(u.b)), Rotr8(InvMixByte(v.b));
    RotrXor(InvMixByte(u.b), InvMixByte(v.b));
    var p2, q2 := Rotr8(Rotr8(InvMixByte(u.c))), Rotr8(Rotr8(InvMixByte(v.c)));
    RotrXor(InvMixByte(u.c), InvMixByte(v.c));
    RotrXor(Rotr8(InvMixByte(u.c)), Rotr8(InvMixByte(v.c)));
    var p3, q3 := Rotr8(Rotr8(Rotr8(InvMixByte(u.d)))), Rotr8(Rotr8(Rotr8(InvMixByte(v.d))));
    RotrXor(InvMixByte(u.d), InvMixByte(v.d));
    RotrXor(Rotr8(InvMixByte(u.d)), Rotr8(InvMixByte(v.d)));
    RotrXor(Rotr8(Rotr8(InvMixByte(u.d))), Rotr8(Rotr8(InvMixByte(v.d))));
    FourPairs(p0, q0, p1, q1, p2, q2, p3, q3);
    assert XorW(u, v).a == Xor(u.a, v.a) && XorW(u, v).b == Xor(u.b, v.b);
    assert XorW(u, v).c == Xor(u.c, v.c) && XorW(u, v).d == Xor(u.d, v.d);
  }

  lemma FourPairs(p0: Word, q0: Word, p1: Word, q1: Word, p2: Word, q2: Word, p3: Word, q3: Word)
    ensures XorW(XorW(XorW(XorW(p0, q0), XorW(p1, q1)), XorW(p2, q2)), XorW(p3, q3))
         == XorW(XorW(XorW(XorW(p0, p1), p2), p3), XorW(XorW(XorW(q0, q1), q2), q3))
  {
    hide XorW;
    XorWInterchange(p0, q0, p1, q1);
    XorWInterchange(XorW(p0, p1), XorW(q0, q1), p2, q2);
    XorWInterchange(XorW(XorW(p0, p1), p2), XorW(XorW(q0, q1), q2), p3, q3);
  }

  lemma InvMixRotr(w: Word)
    ensures InvMix(Rotr8(w)) == Rotr8(InvMix(w))
  {
    hide InvMixByte, XorW;
    var p0, p1, p2, p3 := InvMixByte(w.a), Rotr8(InvMixByte(w.b)), Rotr8(Rotr8(InvMixByte(w.c))),
                          Rotr8(Rotr8(Rotr8(InvMixByte(w.d))));
    RotrXor(p0, p1);
    RotrXor(XorW(p0, p1), p2);
    RotrXor(XorW(XorW(p0, p1), p2), p3);
    assert Rotr8(p3) == InvMixByte(w.d);
    var r0, r1, r2 := Rotr8(p0), Rotr8(p1), Rotr8(p2);
    var d := InvMixByte(w.d);
    assert InvMix(Rotr8(w)) == XorW(XorW(XorW(d, r0), r1), r2);
    XorWAssoc(d, r0, r1);
    XorWAssoc(d, XorW(r0, r1), r2);
    XorWComm(d, XorW(XorW(r0, r1), r2));
  }

  function XTimeW(w: Word): (r: Word) { W(XTime(w.a), XTime(w.b), XTime(w.c), XTime(w.d)) }

  lemma XTimeWXor(u: Word, v: Word)
    ensures XTimeW(XorW(u, v)) == XorW(XTimeW(u), XTimeW(v))
  {
    hide XTime, Xor;
    XTimeXor(u.a, v.a);
    XTimeXor(u.b, v.b);
    XTimeXor(u.c, v.c);
    XTimeXor(u.d, v.d);
  }

  lemma InvMixByteXTime(y: Byte)
    ensures InvMixByte(XTime(y)) == XTimeW(InvMixByte(y))
  {
    hide XTime, Mul;
    MulXTime(C0E, y);
    MulXTime(C09, y);
    MulXTime(C0D, y);
    MulXTime(C0B, y);
  }

  /** Like any map built from field products, InvMixColumns commutes with doubling. */
  lemma InvMixXTime(w: Word)
    ensures InvMix(XTimeW(w)) == XTimeW(InvMix(w))
  {
    hide XTime, InvMixByte, XorW;
    InvMixByteXTime(w.a);
    InvMixByteXTime(w.b);
    InvMixByteXTime(w.c);
    InvMixByteXTime(w.d);
    var p0, p1, p2, p3 := InvMixByte(w.a), Rotr8(InvMixByte(w.b)), Rotr8(Rotr8(InvMixByte(w.c))),
                          Rotr8(Rotr8(Rotr8(InvMixByte(w.d))));
    XTimeWXor(p0, p1);
    XTimeWXor(XorW(p0, p1), p2);
    XTimeWXor(XorW(XorW(p0, p1), p2), p3);
  }

  /** One step of the generator: from `x` to `x ^ XTIME(x)`. */
  lemma MixByteStep(x: Byte)
    ensures MixByte(Xor(x, XTime(x))) == XorW(MixByte(x), XTimeW(MixByte(x)))
  {
    hide XTime, Xor;
    XTimeXor(x, XTime(x));
    XorInterchange(x, XTime(x), XTime(x), XTime(XTime(x)));
  }

  const X2 := B(false, false, false, false, false, false, true, false)

  lemma SmallProducts(c: Byte)
    ensures Mul(c, ONE) == c && Mul(c, X2) == XTime(c) && Mul(c, Xor(ONE, X2)) == Xor(c, XTime(c))
  {
    hide Mul, Xor, XTime;
    XTimeIs(ONE);
    MulUnits(c);
    MulXTime(c, ONE);
    MulXor(c, ONE, X2);
  }

  lemma FourTerms(p: Byte, q: Byte, r: Byte, s: Byte)
    ensures Xor(Xor(Xor(p, q), r), s) == PlainXor(PlainXor(PlainXor(p, q), r), s)
  {
    hide Xor, PlainXor;
    XorIs(p, q);
    XorIs(PlainXor(p, q), r);
    XorIs(PlainXor(PlainXor(p, q), r), s);
  }

  /** A constant times 2 and times 3. */
  lemma TwoAndThree(c: Byte)
    ensures Mul(c, ONE) == c && Mul(c, X2) == PlainTime(c) && Mul(c, Xor(ONE, X2)) == PlainXor(c, PlainTime(c))
  {
    hide Mul, Xor, XTime;
    SmallProducts(c);
    XTimeIs(c);
    XorIs(c, XTime(c));
  }

  lemma InvMixOfOne()
    ensures InvMix(MixByte(ONE)) == W(ONE, ZERO, ZERO, ZERO)
  {
    assert XTime(ONE) == X2 by { XTimeIs(ONE); }
    hide Mul, Xor, XTime;
    assert MixByte(ONE) == W(X2, ONE, ONE, Xor(ONE, X2));
    TwoAndThree(C09);
    TwoAndThree(C0B);
    TwoAndThree(C0D);
    TwoAndThree(C0E);
    FourTerms(Mul(C0E, X2), C0B, C0D, Mul(C09, Xor(ONE, X2)));
    FourTerms(Mul(C09, X2), C0E, C0B, Mul(C0D, Xor(ONE, X2)));
    FourTerms(Mul(C0D, X2), C09, C0E, Mul(C0B, Xor(ONE, X2)));
    FourTerms(Mul(C0B, X2), C0D, C09, Mul(C0E, Xor(ONE, X2)));
  }

  /** The two matrices cancel on a byte in row 0: checked on 1, and carried along the powers of
      the generator, which are all the other bytes. */
  lemma {:induction false} InvMixOfPower(j: nat)
    ensures InvMix(MixByte(Pow(j))) == W(Pow(j), ZERO, ZERO, ZERO)
  {
    hide InvMix, MixByte, XTime, Xor;
    if j == 0 {
      InvMixOfOne();
    } else {
      var x := Pow(j - 1);
      InvMixOfPower(j - 1);
      MixByteStep(x);
      InvMixLinear(MixByte(x), XTimeW(MixByte(x)));
      InvMixXTime(MixByte(x));
      XTimeOfZero();
      XorZero(ZERO);
    }
  }

  lemma XTimeOfZero()
    ensures XTime(ZERO) == ZERO
  {}

  lemma InvMixOfZero()
    ensures InvMix(MixByte(ZERO)) == NONE
  {
    assert MixByte(ZERO) == NONE;
    hide Mul;
    ZeroTimes(C09);
    ZeroTimes(C0B);
    ZeroTimes(C0D);
    ZeroTimes(C0E);
  }

  lemma InvMixOfByte(x: Byte)
    ensures InvMix(MixByte(x)) == W(x, ZERO, ZERO, ZERO)
  {
    hide InvMix, MixByte, Pow;
    if x == ZERO { InvMixOfZero(); } else { InvMixOfPower(Log(x)); }
  }

  /** InvMixColumns undoes MixColumns. */
  lemma InvMixMix(w: Word)
    ensures InvMix(Mix(w)) == w
  {
    var p0, p1, p2, p3 := MixByte(w.a), MixByte(w.b), MixByte(w.c), MixByte(w.d);
    hide InvMix, MixByte, Xor, XorW;
    InvMixLinear(XorW(XorW(p0, Rotr8(p1)), Rotr8(Rotr8(p2))), Rotr8(Rotr8(Rotr8(p3))));
    InvMixLinear(XorW(p0, Rotr8(p1)), Rotr8(Rotr8(p2)));
    InvMixLinear(p0, Rotr8(p1));
    InvMixRotr(p1);
    InvMixRotr(p2);
    InvMixRotr(Rotr8(p2));
    InvMixRotr(p3);
    InvMixRotr(Rotr8(p3));
    InvMixRotr(Rotr8(Rotr8(p3)));
    InvMixOfByte(w.a);
    InvMixOfByte(w.b);
    InvMixOfByte(w.c);
    InvMixOfByte(w.d);
    Assemble(w);
  }

  lemma Assemble(w: Word)
    ensures XorW(XorW(XorW(W(w.a, ZERO, ZERO, ZERO), W(ZERO, w.b, ZERO, ZERO)), W(ZERO, ZERO, w.c, ZERO)),
            W(ZERO, ZERO, ZERO, w.d)) == w
  {
    hide Xor;
    XorZero(w.a);
    XorZero(w.b);
    XorZero(w.c);
    XorZero(w.d);
    XorZero(ZERO);
  }

  // ----- the state ------------------------------------------------------------------------

  /** The state, column by column. */
  datatype State = St(x0: Word, x1: Word, x2: Word, x3: Word)

  function AddKey(k: State, y: State): (r: State) {
    St(XorW(k.x0, y.x0), XorW(k.x1, y.x1), XorW(k.x2, y.x2), XorW(k.x3, y.x3))
  }

  /** SubBytes and then ShiftRows: row i comes from i columns further on. */
  ghost function SubShift(y: State): (r: State) {
    St(W(S(y.x0.a), S(y.x1.b), S(y.x2.c), S(y.x3.d)), W(S(y.x1.a), S(y.x2.b), S(y.x3.c), S(y.x0.d)),
       W(S(y.x2.a), S(y.x3.b), S(y.x0.c), S(y.x1.d)), W(S(y.x3.a), S(y.x0.b), S(y.x1.c), S(y.x2.d)))
  }

  /** Column `c` of a state, and byte `r` of a column. */
  function ColumnAt(y: State, c: nat): (w: Word) {
    match c {
      case 0 => y.x0
      case 1 => y.x1
      case 2 => y.x2
      case _ => y.x3
    }
  }

  function ByteAt(w: Word, r: nat): (b: Byte) {
    match r {
      case 0 => w.a
      case 1 => w.b
      case 2 => w.c
      case _ => w.d
    }
  }

  /** ShiftRows: byte r of column c is the substitute of byte r of column c + r, counted round. */
  lemma ShiftRows(y: State, r: nat, c: nat)
    requires r < 4 && c < 4
    ensures ByteAt(ColumnAt(SubShift(y), c), r) == S(ByteAt(ColumnAt(y, (c + r) % 4), r))
  {
    hide S;
  }

  /** InvShiftRows and InvSubBytes. */
  ghost function InvSubShift(y: State): (r: State) {
    St(W(R(y.x0.a), R(y.x3.b), R(y.x2.c), R(y.x1.d)), W(R(y.x1.a), R(y.x0.b), R(y.x3.c), R(y.x2.d)),
       W(R(y.x2.a), R(y.x1.b), R(y.x0.c), R(y.x3.d)), W(R(y.x3.a), R(y.x2.b), R(y.x1.c), R(y.x0.d)))
  }

  function MixState(y: State): (r: State) { St(Mix(y.x0), Mix(y.x1), Mix(y.x2), Mix(y.x3)) }

  function InvMixState(y: State): (r: State) { St(InvMix(y.x0), InvMix(y.x1), InvMix(y.x2), InvMix(y.x3)) }

  lemma InvSubShiftSubShift(y: State)
    ensures InvSubShift(SubShift(y)) == y
  {
    hide S, R;
    RS(y.x0.a); RS(y.x0.b); RS(y.x0.c); RS(y.x0.d);
    RS(y.x1.a); RS(y.x1.b); RS(y.x1.c); RS(y.x1.d);
    RS(y.x2.a); RS(y.x2.b); RS(y.x2.c); RS(y.x2.d);
    RS(y.x3.a); RS(y.x3.b); RS(y.x3.c); RS(y.x3.d);
  }

  lemma InvMixStateMixState(y: State)
    ensures InvMixState(MixState(y)) == y
  {
    hide Mix, InvMix;
    InvMixMix(y.x0);
    InvMixMix(y.x1);
    InvMixMix(y.x2);
    InvMixMix(y.x3);
  }

  lemma InvMixStateLinear(k: State, y: State)
    ensures InvMixState(AddKey(k, y)) == AddKey(InvMixState(k), InvMixState(y))
  {
    hide InvMix, XorW;
    InvMixLinear(k.x0, y.x0);
    InvMixLinear(k.x1, y.x1);
    InvMixLinear(k.x2, y.x2);
    InvMixLinear(k.x3, y.x3);
  }

  lemma AddKeyTwice(k: State, y: State)
    ensures AddKey(k, AddKey(k, y)) == y
  {
    hide XorW;
    XorWCancel(k.x0, y.x0);
    XorWCancel(k.x1, y.x1);
    XorWCancel(k.x2, y.x2);
    XorWCancel(k.x3, y.x3);
  }

  // ----- the cipher -----------------------------------------------------------------------

  /** Round key `i`: four consecutive words. */
  function Key(rk: seq<Word>, i: nat): (r: State)
    requires 4 * i + 4 <= |rk|
  {
    St(rk[4 * i], rk[4 * i + 1], rk[4 * i + 2], rk[4 * i + 3])
  }

  /** The state after the initial key and `j` full rounds. */
  ghost function Rounds(rk: seq<Word>, j: nat, input: State): (r: State)
    requires 4 * j + 4 <= |rk|
  {
    if j == 0 then AddKey(Key(rk, 0), input)
    else AddKey(Key(rk, j), MixState(SubShift(Rounds(rk, j - 1, input))))
  }

  ghost function Cipher(rk: seq<Word>, nr: nat, input: State): (r: State)
    requires nr > 0 && 4 * nr + 4 <= |rk|
  {
    AddKey(Key(rk, nr), SubShift(Rounds(rk, nr - 1, input)))
  }

  ghost function InvRounds(dk: seq<Word>, j: nat, input: State): (r: State)
    requires 4 * j + 4 <= |dk|
  {
    if j == 0 then AddKey(Key(dk, 0), input)
    else AddKey(Key(dk, j), InvMixState(InvSubShift(InvRounds(dk, j - 1, input))))
  }

  ghost function InvCipher(dk: seq<Word>, nr: nat, input: State): (r: State)
    requires nr > 0 && 4 * nr + 4 <= |dk|
  {
    AddKey(Key(dk, nr), InvSubShift(InvRounds(dk, nr - 1, input)))
  }

  /** The decryption schedule of section 5.3.5: the round keys backwards, the inner ones
      through InvMixColumns. */
  ghost predicate InverseSchedule(rk: seq<Word>, dk: seq<Word>, nr: nat) {
    && 0 < nr && 4 * nr + 4 <= |rk| && 4 * nr + 4 <= |dk|
    && Key(dk, 0) == Key(rk, nr) && Key(dk, nr) == Key(rk, 0)
    && (forall j :: 0 < j < nr ==> Key(dk, j) == InvMixState(Key(rk, nr - j)))
  }

  /** After `j` inverse rounds the state is where encryption was `j` rounds before its end. */
  lemma {:induction false} Backwards(rk: seq<Word>, dk: seq<Word>, nr: nat, j: nat, input: State)
    requires InverseSchedule(rk, dk, nr) && j < nr
    ensures InvRounds(dk, j, Cipher(rk, nr, input)) == SubShift(Rounds(rk, nr - 1 - j, input))
    decreases j
  {
    hide AddKey, MixState, InvMixState, SubShift, InvSubShift, Key;
    if j == 0 {
      AddKeyTwice(Key(rk, nr), SubShift(Rounds(rk, nr - 1, input)));
    } else {
      Backwards(rk, dk, nr, j - 1, input);
      var later := Rounds(rk, nr - j, input);
      var earlier := SubShift(Rounds(rk, nr - 1 - j, input));
      InvSubShiftSubShift(later);
      InvMixStateLinear(Key(rk, nr - j), later);
      AddKeyTwice(Key(rk, nr - j), MixState(earlier));
      InvMixStateMixState(earlier);
    }
  }

  /** Decryption undoes encryption, for every round key sequence and every block. */
  lemma InvCipherCipher(rk: seq<Word>, dk: seq<Word>, nr: nat, input: State)
    requires InverseSchedule(rk, dk, nr)
    ensures InvCipher(dk, nr, Cipher(rk, nr, input)) == input
  {
    hide AddKey, MixState, InvMixState, SubShift, InvSubShift, Key;
    Backwards(rk, dk, nr, nr - 1, input);
    assert Rounds(rk, 0, input) == AddKey(Key(rk, 0), input);
    InvSubShiftSubShift(Rounds(rk, 0, input));
    AddKeyTwice(Key(rk, 0), input);
  }
}
