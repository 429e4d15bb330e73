/** Two examples of appendix C of FIPS 197, from the key to the output block. */
module AesAnswers {
  import opened Arithmetic
  import opened GaloisField
  import opened SBox
  import opened SBoxTable
  import opened AesTables
  import opened AesCipher
  import opened AesKeySchedule
  import opened AesRounds
  import opened Aes

  // ----- columns and blocks ---------------------------------------------------------------

  datatype Col = Col(a: bv8, b: bv8, c: bv8, d: bv8)

  /** The column that constants stand for. */
  function Column(v: Col): (r: Word) { W(Hex(v.a), Hex(v.b), Hex(v.c), Hex(v.d)) }

  /** The column of 16 bytes whose last byte is bit `n` and up. */
  function Quarter(x: bv128, n: bv8): (r: Col)
    requires n <= 96
  {
    Col(((x >> (n + 24)) & 0xff) as bv8, ((x >> (n + 16)) & 0xff) as bv8,
        ((x >> (n + 8)) & 0xff) as bv8, ((x >> n) & 0xff) as bv8)
  }

  /** The state that 16 bytes stand for, column by column. */
  function Block(x: bv128): (r: State) {
    St(Column(Quarter(x, 96)), Column(Quarter(x, 64)), Column(Quarter(x, 32)), Column(Quarter(x, 0)))
  }

  function ColXor(u: Col, v: Col): (r: Col) { Col(BXor(u.a, v.a), BXor(u.b, v.b), BXor(u.c, v.c), BXor(u.d, v.d)) }

  function ColSub(v: Col): (r: Col) { Col(Printed(v.a), Printed(v.b), Printed(v.c), Printed(v.d)) }

  function ColRot(v: Col): (r: Col) { Col(v.b, v.c, v.d, v.a) }

  /** Three times a byte of the field, and a sum of four bytes. */
  function BThree(x: bv8): (r: bv8) { BXor(x, BTime(x)) }

  function BSum(x: bv8, y: bv8, z: bv8, w: bv8): (r: bv8) { BXor(BXor(BXor(x, y), z), w) }

  /** MixColumns: the rows 02 03 01 01, 01 02 03 01, 01 01 02 03 and 03 01 01 02. */
  function ColMix(v: Col): (r: Col) {
    Col(BSum(BTime(v.a), BThree(v.b), v.c, v.d), BSum(v.a, BTime(v.b), BThree(v.c), v.d),
        BSum(v.a, v.b, BTime(v.c), BThree(v.d)), BSum(BThree(v.a), v.b, v.c, BTime(v.d)))
  }

  lemma XorColumn(u: Col, v: Col)
    ensures XorW(Column(u), Column(v)) == Column(ColXor(u, v))
  {
    hide Xor, Hex, BXor;
    XorHex(u.a, v.a);
    XorHex(u.b, v.b);
    XorHex(u.c, v.c);
    XorHex(u.d, v.d);
  }

  lemma SubColumn(v: Col)
    ensures SubWord(Column(v)) == Column(ColSub(v)) && RotWord(Column(v)) == Column(ColRot(v))
  {
    hide S, Hex, Printed;
    SBoxIsTable(v.a);
    SBoxIsTable(v.b);
    SBoxIsTable(v.c);
    SBoxIsTable(v.d);
  }

  lemma ThreeHex(x: bv8)
    ensures Xor(Hex(x), XTime(Hex(x))) == Hex(BThree(x)) && XTime(Hex(x)) == Hex(BTime(x))
  {
    hide Xor, XTime, Hex, BXor, BTime;
    TimeHex(x);
    XorHex(x, BTime(x));
  }

  lemma SumHex(x: bv8, y: bv8, z: bv8, w: bv8)
    ensures Xor(Xor(Xor(Hex(x), Hex(y)), Hex(z)), Hex(w)) == Hex(BSum(x, y, z, w))
  {
    hide Xor, Hex, BXor;
    XorHex(x, y);
    XorHex(BXor(x, y), z);
    XorHex(BXor(BXor(x, y), z), w);
  }

  lemma MixColumn(v: Col)
    ensures Mix(Column(v)) == Column(ColMix(v))
  {
    hide Mix, Xor, XTime, Hex, BTime, BThree, BSum;
    MixIsMatrix(Column(v));
    ThreeHex(v.a);
    ThreeHex(v.b);
    ThreeHex(v.c);
    ThreeHex(v.d);
    SumHex(BTime(v.a), BThree(v.b), v.c, v.d);
    SumHex(v.a, BTime(v.b), BThree(v.c), v.d);
    SumHex(v.a, v.b, BTime(v.c), BThree(v.d));
    SumHex(BThree(v.a), v.b, v.c, BTime(v.d));
  }

  // ----- what is worked out byte by byte --------------------------------------------------

  /** The state after SubBytes and ShiftRows. */
  predicate Substitutes(y: bv128, t: bv128) {
    hide Printed;
    && ((t >> 120) & 0xff) as bv8 == Printed(((y >> 120) & 0xff) as bv8)
    && ((t >> 112) & 0xff) as bv8 == Printed(((y >> 80) & 0xff) as bv8)
    && ((t >> 104) & 0xff) as bv8 == Printed(((y >> 40) & 0xff) as bv8)
    && ((t >> 96) & 0xff) as bv8 == Printed((y & 0xff) as bv8)
    && ((t >> 88) & 0xff) as bv8 == Printed(((y >> 88) & 0xff) as bv8)
    && ((t >> 80) & 0xff) as bv8 == Printed(((y >> 48) & 0xff) as bv8)
    && ((t >> 72) & 0xff) as bv8 == Printed(((y >> 8) & 0xff) as bv8)
    && ((t >> 64) & 0xff) as bv8 == Printed(((y >> 96) & 0xff) as bv8)
    && ((t >> 56) & 0xff) as bv8 == Printed(((y >> 56) & 0xff) as bv8)
    && ((t >> 48) & 0xff) as bv8 == Printed(((y >> 16) & 0xff) as bv8)
    && ((t >> 40) & 0xff) as bv8 == Printed(((y >> 104) & 0xff) as bv8)
    && ((t >> 32) & 0xff) as bv8 == Printed(((y >> 64) & 0xff) as bv8)
    && ((t >> 24) & 0xff) as bv8 == Printed(((y >> 24) & 0xff) as bv8)
    && ((t >> 16) & 0xff) as bv8 == Printed(((y >> 112) & 0xff) as bv8)
    && ((t >> 8) & 0xff) as bv8 == Printed(((y >> 72) & 0xff) as bv8)
    && (t & 0xff) as bv8 == Printed(((y >> 32) & 0xff) as bv8)
  }

  /** The sum of two blocks. */
  predicate Adds(k: bv128, m: bv128, z: bv128) {
    hide BXor;
    && ((z >> 120) & 0xff) as bv8 == BXor(((k >> 120) & 0xff) as bv8, ((m >> 120) & 0xff) as bv8)
    && ((z >> 112) & 0xff) as bv8 == BXor(((k >> 112) & 0xff) as bv8, ((m >> 112) & 0xff) as bv8)
    && ((z >> 104) & 0xff) as bv8 == BXor(((k >> 104) & 0xff) as bv8, ((m >> 104) & 0xff) as bv8)
    && ((z >> 96) & 0xff) as bv8 == BXor(((k >> 96) & 0xff) as bv8, ((m >> 96) & 0xff) as bv8)
    && ((z >> 88) & 0xff) as bv8 == BXor(((k >> 88) & 0xff) as bv8, ((m >> 88) & 0xff) as bv8)
    && ((z >> 80) & 0xff) as bv8 == BXor(((k >> 80) & 0xff) as bv8, ((m >> 80) & 0xff) as bv8)
    && ((z >> 72) & 0xff) as bv8 == BXor(((k >> 72) & 0xff) as bv8, ((m >> 72) & 0xff) as bv8)
    && ((z >> 64) & 0xff) as bv8 == BXor(((k >> 64) & 0xff) as bv8, ((m >> 64) & 0xff) as bv8)
    && ((z >> 56) & 0xff) as bv8 == BXor(((k >> 56) & 0xff) as bv8, ((m >> 56) & 0xff) as bv8)
    && ((z >> 48) & 0xff) as bv8 == BXor(((k >> 48) & 0xff) as bv8, ((m >> 48) & 0xff) as bv8)
    && ((z >> 40) & 0xff) as bv8 == BXor(((k >> 40) & 0xff) as bv8, ((m >> 40) & 0xff) as bv8)
    && ((z >> 32) & 0xff) as bv8 == BXor(((k >> 32) & 0xff) as bv8, ((m >> 32) & 0xff) as bv8)
    && ((z >> 24) & 0xff) as bv8 == BXor(((k >> 24) & 0xff) as bv8, ((m >> 24) & 0xff) as bv8)
    && ((z >> 16) & 0xff) as bv8 == BXor(((k >> 16) & 0xff) as bv8, ((m >> 16) & 0xff) as bv8)
    && ((z >> 8) & 0xff) as bv8 == BXor(((k >> 8) & 0xff) as bv8, ((m >> 8) & 0xff) as bv8)
    && (z & 0xff) as bv8 == BXor((k & 0xff) as bv8, (m & 0xff) as bv8)
  }

  /** The state after MixColumns and the addition of the key. */
  predicate Mixes(t: bv128, k: bv128, z: bv128) {
    hide BXor, BSum, BTime, BThree;
    && ((z >> 120) & 0xff) as bv8 == BXor(((k >> 120) & 0xff) as bv8,
         BSum(BTime(((t >> 120) & 0xff) as bv8), BThree(((t >> 112) & 0xff) as bv8), ((t >> 104) & 0xff) as bv8,
           ((t >> 96) & 0xff) as bv8))
    && ((z >> 112) & 0xff) as bv8 == BXor(((k >> 112) & 0xff) as bv8,
         BSum(((t >> 120) & 0xff) as bv8, BTime(((t >> 112) & 0xff) as bv8), BThree(((t >> 104) & 0xff) as bv8),
           ((t >> 96) & 0xff) as bv8))
    && ((z >> 104) & 0xff) as bv8 == BXor(((k >> 104) & 0xff) as bv8,
         BSum(((t >> 120) & 0xff) as bv8, ((t >> 112) & 0xff) as bv8, BTime(((t >> 104) & 0xff) as bv8),
           BThree(((t >> 96) & 0xff) as bv8)))
    && ((z >> 96) & 0xff) as bv8 == BXor(((k >> 96) & 0xff) as bv8,
         BSum(BThree(((t >> 120) & 0xff) as bv8), ((t >> 112) & 0xff) as bv8, ((t >> 104) & 0xff) as bv8,
           BTime(((t >> 96) & 0xff) as bv8)))
    && ((z >> 88) & 0xff) as bv8 == BXor(((k >> 88) & 0xff) as bv8,
         BSum(BTime(((t >> 88) & 0xff) as bv8), BThree(((t >> 80) & 0xff) as bv8), ((t >> 72) & 0xff) as bv8,
           ((t >> 64) & 0xff) as bv8))
    && ((z >> 80) & 0xff) as bv8 == BXor(((k >> 80) & 0xff) as bv8,
         BSum(((t >> 88) & 0xff) as bv8, BTime(((t >> 80) & 0xff) as bv8), BThree(((t >> 72) & 0xff) as bv8),
           ((t >> 64) & 0xff) as bv8))
    && ((z >> 72) & 0xff) as bv8 == BXor(((k >> 72) & 0xff) as bv8,
         BSum(((t >> 88) & 0xff) as bv8, ((t >> 80) & 0xff) as bv8, BTime(((t >> 72) & 0xff) as bv8),
           BThree(((t >> 64) & 0xff) as bv8)))
    && ((z >> 64) & 0xff) as bv8 == BXor(((k >> 64) & 0xff) as bv8,
         BSum(BThree(((t >> 88) & 0xff) as bv8), ((t >> 80) & 0xff) as bv8, ((t >> 72) & 0xff) as bv8,
           BTime(((t >> 64) & 0xff) as bv8)))
    && ((z >> 56) & 0xff) as bv8 == BXor(((k >> 56) & 0xff) as bv8,
         BSum(BTime(((t >> 56) & 0xff) as bv8), BThree(((t >> 48) & 0xff) as bv8), ((t >> 40) & 0xff) as bv8,
           ((t >> 32) & 0xff) as bv8))
    && ((z >> 48) & 0xff) as bv8 == BXor(((k >> 48) & 0xff) as bv8,
         BSum(((t >> 56) & 0xff) as bv8, BTime(((t >> 48) & 0xff) as bv8), BThree(((t >> 40) & 0xff) as bv8),
           ((t >> 32) & 0xff) as bv8))
    && ((z >> 40) & 0xff) as bv8 == BXor(((k >> 40) & 0xff) as bv8,
         BSum(((t >> 56) & 0xff) as bv8, ((t >> 48) & 0xff) as bv8, BTime(((t >> 40) & 0xff) as bv8),
           BThree(((t >> 32) & 0xff) as bv8)))
    && ((z >> 32) & 0xff) as bv8 == BXor(((k >> 32) & 0xff) as bv8,
         BSum(BThree(((t >> 56) & 0xff) as bv8), ((t >> 48) & 0xff) as bv8, ((t >> 40) & 0xff) as bv8,
           BTime(((t >> 32) & 0xff) as bv8)))
    && ((z >> 24) & 0xff) as bv8 == BXor(((k >> 24) & 0xff) as bv8,
         BSum(BTime(((t >> 24) & 0xff) as bv8), BThree(((t >> 16) & 0xff) as bv8), ((t >> 8) & 0xff) as bv8,
           (t & 0xff) as bv8))
    && ((z >> 16) & 0xff) as bv8 == BXor(((k >> 16) & 0xff) as bv8,
         BSum(((t >> 24) & 0xff) as bv8, BTime(((t >> 16) & 0xff) as bv8), BThree(((t >> 8) & 0xff) as bv8),
           (t & 0xff) as bv8))
    && ((z >> 8) & 0xff) as bv8 == BXor(((k >> 8) & 0xff) as bv8,
         BSum(((t >> 24) & 0xff) as bv8, ((t >> 16) & 0xff) as bv8, BTime(((t >> 8) & 0xff) as bv8),
           BThree((t & 0xff) as bv8)))
    && (z & 0xff) as bv8 == BXor((k & 0xff) as bv8,
         BSum(BThree(((t >> 24) & 0xff) as bv8), ((t >> 16) & 0xff) as bv8, ((t >> 8) & 0xff) as bv8,
           BTime((t & 0xff) as bv8)))
  }

  lemma SubstitutesIs(y: bv128, t: bv128)
    requires Substitutes(y, t)
    ensures SubShift(Block(y)) == Block(t)
  {
    hide S, Hex, Printed;
    var v, w, x, u := Quarter(y, 96), Quarter(y, 64), Quarter(y, 32), Quarter(y, 0);
    SubColumn(Col(v.a, w.b, x.c, u.d));
    SubColumn(Col(w.a, x.b, u.c, v.d));
    SubColumn(Col(x.a, u.b, v.c, w.d));
    SubColumn(Col(u.a, v.b, w.c, x.d));
  }

  lemma AddsIs(k: bv128, m: bv128, z: bv128)
    requires Adds(k, m, z)
    ensures AddKey(Block(k), Block(m)) == Block(z)
  {
    hide Column, XorW, BXor;
    XorColumn(Quarter(k, 96), Quarter(m, 96));
    XorColumn(Quarter(k, 64), Quarter(m, 64));
    XorColumn(Quarter(k, 32), Quarter(m, 32));
    XorColumn(Quarter(k, 0), Quarter(m, 0));
  }

  lemma MixesIs(t: bv128, k: bv128, z: bv128)
    requires Mixes(t, k, z)
    ensures AddKey(Block(k), MixState(Block(t))) == Block(z)
  {
    hide Column, XorW, Mix, BXor, BSum, BTime, BThree;
    MixColumn(Quarter(t, 96));
    MixColumn(Quarter(t, 64));
    MixColumn(Quarter(t, 32));
    MixColumn(Quarter(t, 0));
    XorColumn(Quarter(k, 96), ColMix(Quarter(t, 96)));
    XorColumn(Quarter(k, 64), ColMix(Quarter(t, 64)));
    XorColumn(Quarter(k, 32), ColMix(Quarter(t, 32)));
    XorColumn(Quarter(k, 0), ColMix(Quarter(t, 0)));
  }

  lemma FirstState(rk: seq<Word>, m: bv128, k: bv128, z: bv128)
    requires |rk| >= 4 && Key(rk, 0) == Block(k) && Adds(k, m, z)
    ensures Rounds(rk, 0, Block(m)) == Block(z)
  {
    hide Block, AddKey, Key, Adds;
    AddsIs(k, m, z);
  }

  lemma NextState(rk: seq<Word>, j: nat, input: State, y: bv128, t: bv128, k: bv128, z: bv128)
    requires 4 * j + 8 <= |rk| && Rounds(rk, j, input) == Block(y) && Key(rk, j + 1) == Block(k)
    requires Substitutes(y, t) && Mixes(t, k, z)
    ensures Rounds(rk, j + 1, input) == Block(z)
  {
    hide Block, SubShift, MixState, AddKey, Key, Substitutes, Mixes;
    SubstitutesIs(y, t);
    MixesIs(t, k, z);
  }

  lemma LastState(rk: seq<Word>, nr: nat, input: State, y: bv128, t: bv128, k: bv128, z: bv128)
    requires nr > 0 && 4 * nr + 4 <= |rk| && Rounds(rk, nr - 1, input) == Block(y) && Key(rk, nr) == Block(k)
    requires Substitutes(y, t) && Adds(k, t, z)
    ensures Cipher(rk, nr, input) == Block(z)
  {
    hide Block, SubShift, AddKey, Key, Substitutes, Adds, Rounds;
    SubstitutesIs(y, t);
    AddsIs(k, t, z);
  }

  // ----- the key expansion ----------------------------------------------------------------

  /** Word `i` of the expanded key. */
  ghost predicate Holds(rk: seq<Word>, i: nat, v: Col) { i < |rk| && rk[i] == Column(v) }

  /** A word that is the sum of two earlier ones. */
  lemma Plain(rk: seq<Word>, key: seq<Byte>, nk: nat, n: nat, i: nat, far: Col, near: Col)
    requires 0 < nk <= i < n && 4 * nk <= |key| && Expanded(rk, key, nk, n)
    requires i % nk != 0 && (nk > 6 ==> i % nk != 4) && Holds(rk, i - nk, far) && Holds(rk, i - 1, near)
    ensures Holds(rk, i, ColXor(far, near))
  {
    hide Column, XorW, ColXor, SubWord, RotWord, RconWord;
    XorColumn(far, near);
  }

  /** The first word after a group boundary: rotated, through the S-box, with a round constant. */
  function Opened(near: Col, c: bv8): (r: Col) { ColXor(ColSub(ColRot(near)), Col(c, 0, 0, 0)) }

  lemma Opening(rk: seq<Word>, key: seq<Byte>, nk: nat, n: nat, i: nat, q: nat, c: bv8, far: Col, near: Col)
    requires 0 < nk <= i < n && 4 * nk <= |key| && Expanded(rk, key, nk, n)
    requires i % nk == 0 && i / nk == q + 1 && XTimes(q, ONE) == Hex(c)
    requires Holds(rk, i - nk, far) && Holds(rk, i - 1, near)
    ensures Holds(rk, i, ColXor(far, Opened(near, c)))
  {
    hide XorW, ColXor, SubWord, RotWord, ColSub, ColRot, Temp, XTimes, Hex;
    TempAtOpening(nk, i, q, rk[i - 1]);
    ZeroHex();
    assert RconWord(q) == Column(Col(c, 0, 0, 0));
    hide Column, RconWord;
    SubColumn(near);
    SubColumn(ColRot(near));
    XorColumn(ColSub(ColRot(near)), Col(c, 0, 0, 0));
    XorColumn(far, Opened(near, c));
  }

  /** The word in the middle of a group of eight: through the S-box. */
  lemma Middle(rk: seq<Word>, key: seq<Byte>, n: nat, i: nat, far: Col, near: Col)
    requires 8 <= i < n && 32 <= |key| && Expanded(rk, key, 8, n) && i % 8 == 4
    requires Holds(rk, i - 8, far) && Holds(rk, i - 1, near)
    ensures Holds(rk, i, ColXor(far, ColSub(near)))
  {
    hide Column, XorW, ColXor, SubWord, RotWord, RconWord, ColSub;
    SubColumn(near);
    XorColumn(far, ColSub(near));
  }

  /** Four words make a round key. */
  lemma KeyHolds(rk: seq<Word>, j: nat, k: bv128)
    requires 4 * j + 4 <= |rk|
    ensures Key(rk, j) == Block(k) <==>
              && Holds(rk, 4 * j, Quarter(k, 96)) && Holds(rk, 4 * j + 1, Quarter(k, 64))
              && Holds(rk, 4 * j + 2, Quarter(k, 32)) && Holds(rk, 4 * j + 3, Quarter(k, 0))
  {
    hide Quarter, Column;
  }

  /** The first word of a round key, byte by byte: after a group boundary, and in the middle. */
  predicate Opens(far: bv128, near: bv128, c: bv8, next: bv128) {
    hide Printed, BXor;
    && ((next >> 120) & 0xff) as bv8
      == BXor(((far >> 120) & 0xff) as bv8, BXor(Printed(((near >> 16) & 0xff) as bv8), c))
    && ((next >> 112) & 0xff) as bv8
      == BXor(((far >> 112) & 0xff) as bv8, BXor(Printed(((near >> 8) & 0xff) as bv8), 0))
    && ((next >> 104) & 0xff) as bv8 == BXor(((far >> 104) & 0xff) as bv8, BXor(Printed((near & 0xff) as bv8), 0))
    && ((next >> 96) & 0xff) as bv8 == BXor(((far >> 96) & 0xff) as bv8, BXor(Printed(((near >> 24) & 0xff) as bv8), 0))
  }

  predicate Continues(far: bv128, near: bv128, next: bv128) {
    hide Printed, BXor;
    && ((next >> 120) & 0xff) as bv8 == BXor(((far >> 120) & 0xff) as bv8, Printed(((near >> 24) & 0xff) as bv8))
    && ((next >> 112) & 0xff) as bv8 == BXor(((far >> 112) & 0xff) as bv8, Printed(((near >> 16) & 0xff) as bv8))
    && ((next >> 104) & 0xff) as bv8 == BXor(((far >> 104) & 0xff) as bv8, Printed(((near >> 8) & 0xff) as bv8))
    && ((next >> 96) & 0xff) as bv8 == BXor(((far >> 96) & 0xff) as bv8, Printed((near & 0xff) as bv8))
  }

  /** Another word of a round key, the sum of the one before and of one further back. */
  predicate Chained(far: bv128, next: bv128, n: bv8)
    requires n <= 64
  {
    hide BXor;
    && ((next >> (n + 24)) & 0xff) as bv8
      == BXor(((far >> (n + 24)) & 0xff) as bv8, ((next >> ((n + 32) + 24)) & 0xff) as bv8)
    && ((next >> (n + 16)) & 0xff) as bv8
      == BXor(((far >> (n + 16)) & 0xff) as bv8, ((next >> ((n + 32) + 16)) & 0xff) as bv8)
    && ((next >> (n + 8)) & 0xff) as bv8
      == BXor(((far >> (n + 8)) & 0xff) as bv8, ((next >> ((n + 32) + 8)) & 0xff) as bv8)
    && ((next >> n) & 0xff) as bv8 == BXor(((far >> n) & 0xff) as bv8, ((next >> (n + 32)) & 0xff) as bv8)
  }

  lemma ChainedIs(far: bv128, next: bv128, n: bv8)
    requires n <= 64 && Chained(far, next, n)
    ensures Quarter(next, n) == ColXor(Quarter(far, n), Quarter(next, n + 32))
  {
    hide BXor;
  }

  lemma OpensIs(far: bv128, near: bv128, c: bv8, next: bv128)
    requires Opens(far, near, c, next)
    ensures Quarter(next, 96) == ColXor(Quarter(far, 96), Opened(Quarter(near, 0), c))
  {
    hide BXor, Printed;
  }

  lemma ContinuesIs(far: bv128, near: bv128, next: bv128)
    requires Continues(far, near, next)
    ensures Quarter(next, 96) == ColXor(Quarter(far, 96), ColSub(Quarter(near, 0)))
  {
    hide BXor, Printed;
  }

  /** What is worked out byte by byte for a round key. */
  predicate Chains(far: bv128, next: bv128) { Chained(far, next, 64) && Chained(far, next, 32)
    && Chained(far, next, 0) }

  predicate Expands(far: bv128, near: bv128, c: bv8, next: bv128) { Opens(far, near, c, next) && Chains(far, next) }

  predicate ExpandsInside(far: bv128, near: bv128, next: bv128) { Continues(far, near, next) && Chains(far, next) }

  /** Round key `j` of a key of 4 or 8 words, after a group boundary. */
  lemma OpeningKey(rk: seq<Word>, key: seq<Byte>, nk: nat, n: nat, j: nat, q: nat, c: bv8,
                   far: bv128, near: bv128, next: bv128)
    requires (nk == 4 || nk == 8) && 4 * nk <= |key| && n <= |rk| && Expanded(rk, key, nk, n)
    requires nk <= 4 * j && 4 * j + 4 <= n && 4 * j == nk * (q + 1) && XTimes(q, ONE) == Hex(c)
    requires Key(rk, j - nk / 4) == Block(far) && Key(rk, j - 1) == Block(near)
    requires Expands(far, near, c, next)
    ensures Key(rk, j) == Block(next)
  {
    hide Quarter, ColXor, ColSub, ColRot, Expanded, Key, Block, Column, XTimes, Hex, Opened, Opens,
         Chains, Holds;
    KeyHolds(rk, j - nk / 4, far);
    KeyHolds(rk, j - 1, near);
    Quotient(4 * j, nk, q + 1, 0);
    Opening(rk, key, nk, n, 4 * j, q, c, Quarter(far, 96), Quarter(near, 0));
    OpensIs(far, near, c, next);
    RestOfKey(rk, key, nk, n, j, far, next);
  }

  /** And in the middle of a group of eight. */
  lemma MiddleKey(rk: seq<Word>, key: seq<Byte>, n: nat, j: nat, far: bv128, near: bv128, next: bv128)
    requires 32 <= |key| && n <= |rk| && Expanded(rk, key, 8, n) && 8 <= 4 * j && 4 * j + 4 <= n && j % 2 == 1
    requires Key(rk, j - 2) == Block(far) && Key(rk, j - 1) == Block(near)
    requires ExpandsInside(far, near, next)
    ensures Key(rk, j) == Block(next)
  {
    hide Quarter, ColXor, ColSub, Expanded, Key, Block, Column, Continues, Chains, Holds;
    KeyHolds(rk, j - 2, far);
    KeyHolds(rk, j - 1, near);
    Quotient(4 * j, 8, j / 2, 4);
    Middle(rk, key, n, 4 * j, Quarter(far, 96), Quarter(near, 0));
    ContinuesIs(far, near, next);
    RestOfKey(rk, key, 8, n, j, far, next);
  }

  lemma RestOfKey(rk: seq<Word>, key: seq<Byte>, nk: nat, n: nat, j: nat, far: bv128, next: bv128)
    requires (nk == 4 || nk == 8) && 4 * nk <= |key| && n <= |rk| && Expanded(rk, key, nk, n)
    requires nk <= 4 * j && 4 * j + 4 <= n && Key(rk, j - nk / 4) == Block(far)
    requires Holds(rk, 4 * j, Quarter(next, 96)) && Chains(far, next)
    ensures Key(rk, j) == Block(next)
  {
    hide Quarter, ColXor, Expanded, Key, Block, Column, Holds, Chained;
    KeyHolds(rk, j - nk / 4, far);
    KeyHolds(rk, j, next);
    NotOpening(nk, j, 1);
    NotOpening(nk, j, 2);
    NotOpening(nk, j, 3);
    ChainedIs(far, next, 64);
    ChainedIs(far, next, 32);
    ChainedIs(far, next, 0);
    Plain(rk, key, nk, n, 4 * j + 1, Quarter(far, 64), Quarter(next, 96));
    Plain(rk, key, nk, n, 4 * j + 2, Quarter(far, 32), Quarter(next, 64));
    Plain(rk, key, nk, n, 4 * j + 3, Quarter(far, 0), Quarter(next, 32));
  }

  lemma NotOpening(nk: nat, j: nat, r: nat)
    requires (nk == 4 || nk == 8) && 1 <= r <= 3
    ensures (4 * j + r) % nk != 0 && (nk == 8 ==> (4 * j + r) % nk != 4)
  {
    if nk == 4 { Quotient(4 * j + r, 4, j, r); } else { Quotient(4 * j + r, 8, j / 2, j % 2 * 4 + r); }
  }

  /** The first round keys are the bytes of the key. */
  lemma FirstKey(rk: seq<Word>, key: seq<Byte>, nk: nat, n: nat, j: nat, k: bv128)
    requires 0 < nk && 4 * nk <= |key| && Expanded(rk, key, nk, n) && nk <= n && 4 * j + 4 <= nk
    requires GetWord(key, 4 * j) == Column(Quarter(k, 96)) && GetWord(key, 4 * j + 1) == Column(Quarter(k, 64))
    requires GetWord(key, 4 * j + 2) == Column(Quarter(k, 32)) && GetWord(key, 4 * j + 3) == Column(Quarter(k, 0))
    ensures Key(rk, j) == Block(k)
  {
    hide Quarter, Column, GetWord, Temp, XorW;
  }

  lemma WordsOf(x: bv128)
    ensures GetWord(Store(Block(x)), 0) == Column(Quarter(x, 96))
            && GetWord(Store(Block(x)), 1) == Column(Quarter(x, 64))
    ensures GetWord(Store(Block(x)), 2) == Column(Quarter(x, 32))
            && GetWord(Store(Block(x)), 3) == Column(Quarter(x, 0))
  {
    hide Quarter, Column, GetWord, Store;
    assert Load(Store(Block(x))) == Block(x);
  }

  lemma WordsOfBoth(a: seq<Byte>, b: seq<Byte>)
    requires |a| == 16 && |b| == 16
    ensures GetWord(a + b, 0) == GetWord(a, 0) && GetWord(a + b, 1) == GetWord(a, 1)
    ensures GetWord(a + b, 2) == GetWord(a, 2) && GetWord(a + b, 3) == GetWord(a, 3)
    ensures GetWord(a + b, 4) == GetWord(b, 0) && GetWord(a + b, 5) == GetWord(b, 1)
    ensures GetWord(a + b, 6) == GetWord(b, 2) && GetWord(a + b, 7) == GetWord(b, 3)
  {}

  lemma Rcon(q: nat, c: bv8)
    requires XTimes(q, ONE) == Hex(c)
    ensures XTimes(q + 1, ONE) == Hex(BTime(c))
  {
    hide XTime, XTimes, Hex, BTime;
    XTimesNext(q, ONE);
    TimeHex(c);
  }

  /** The round constants: the powers of x. */
  lemma Rcons()
    ensures XTimes(0, ONE) == Hex(0x01) && XTimes(1, ONE) == Hex(0x02)
    ensures XTimes(2, ONE) == Hex(0x04) && XTimes(3, ONE) == Hex(0x08)
    ensures XTimes(4, ONE) == Hex(0x10) && XTimes(5, ONE) == Hex(0x20)
    ensures XTimes(6, ONE) == Hex(0x40) && XTimes(7, ONE) == Hex(0x80)
    ensures XTimes(8, ONE) == Hex(0x1b) && XTimes(9, ONE) == Hex(0x36)
  {
    hide XTimes, Hex;
    ZeroHex();
    XTimesNext(0, ONE);
    Rcon(0, 0x01);
    Rcon(1, 0x02);
    Rcon(2, 0x04);
    Rcon(3, 0x08);
    Rcon(4, 0x10);
    Rcon(5, 0x20);
    Rcon(6, 0x40);
    Rcon(7, 0x80);
    Rcon(8, 0x1b);
  }

  // ----- 128 bits -------------------------------------------------------------------------

  /** The key 00 01 02 ... 0f. */
  function Key128(): (r: seq<Byte>)
    ensures |r| == 16
  {
    Store(Block(0x000102030405060708090a0b0c0d0e0f))
  }

  lemma First128(rk: seq<Word>)
    requires |rk| >= 44 && Expanded(rk, Key128(), 4, 44)
    ensures Key(rk, 0) == Block(0x000102030405060708090a0b0c0d0e0f)
  {
    hide Expanded, Quarter, Column, Store, GetWord, Key;
    WordsOf(0x000102030405060708090a0b0c0d0e0f);
    FirstKey(rk, Key128(), 4, 44, 0, 0x000102030405060708090a0b0c0d0e0f);
  }

  lemma Round128At0()
    ensures Adds(0x000102030405060708090a0b0c0d0e0f, 0x00112233445566778899aabbccddeeff,
                 0x00102030405060708090a0b0c0d0e0f0)
  {}

  lemma Key128At1()
    ensures Expands(0x000102030405060708090a0b0c0d0e0f, 0x000102030405060708090a0b0c0d0e0f, 0x01,
                    0xd6aa74fdd2af72fadaa678f1d6ab76fe)
  {}

  lemma Round128At1()
    ensures Substitutes(0x00102030405060708090a0b0c0d0e0f0, 0x6353e08c0960e104cd70b751bacad0e7)
    ensures Mixes(0x6353e08c0960e104cd70b751bacad0e7, 0xd6aa74fdd2af72fadaa678f1d6ab76fe,
                  0x89d810e8855ace682d1843d8cb128fe4)
  {}

  lemma Key128At2()
    ensures Expands(0xd6aa74fdd2af72fadaa678f1d6ab76fe, 0xd6aa74fdd2af72fadaa678f1d6ab76fe, 0x02,
                    0xb692cf0b643dbdf1be9bc5006830b3fe)
  {}

  lemma Round128At2()
    ensures Substitutes(0x89d810e8855ace682d1843d8cb128fe4, 0xa7be1a6997ad739bd8c9ca451f618b61)
    ensures Mixes(0xa7be1a6997ad739bd8c9ca451f618b61, 0xb692cf0b643dbdf1be9bc5006830b3fe,
                  0x4915598f55e5d7a0daca94fa1f0a63f7)
  {}

  lemma Key128At3()
    ensures Expands(0xb692cf0b643dbdf1be9bc5006830b3fe, 0xb692cf0b643dbdf1be9bc5006830b3fe, 0x04,
                    0xb6ff744ed2c2c9bf6c590cbf0469bf41)
  {}

  lemma Round128At3()
    ensures Substitutes(0x4915598f55e5d7a0daca94fa1f0a63f7, 0x3bd92268fc74fb735767cbe0c0590e2d)
    ensures Mixes(0x3bd92268fc74fb735767cbe0c0590e2d, 0xb6ff744ed2c2c9bf6c590cbf0469bf41,
                  0xfa636a2825b339c940668a3157244d17)
  {}

  lemma Key128At4()
    ensures Expands(0xb6ff744ed2c2c9bf6c590cbf0469bf41, 0xb6ff744ed2c2c9bf6c590cbf0469bf41, 0x08,
                    0x47f7f7bc95353e03f96c32bcfd058dfd)
  {}

  lemma Round128At4()
    ensures Substitutes(0xfa636a2825b339c940668a3157244d17, 0x2d6d7ef03f33e334093602dd5bfb12c7)
    ensures Mixes(0x2d6d7ef03f33e334093602dd5bfb12c7, 0x47f7f7bc95353e03f96c32bcfd058dfd,
                  0x247240236966b3fa6ed2753288425b6c)
  {}

  lemma Key128At5()
    ensures Expands(0x47f7f7bc95353e03f96c32bcfd058dfd, 0x47f7f7bc95353e03f96c32bcfd058dfd, 0x10,
                    0x3caaa3e8a99f9deb50f3af57adf622aa)
  {}

  lemma Round128At5()
    ensures Substitutes(0x247240236966b3fa6ed2753288425b6c, 0x36339d50f9b539269f2c092dc4406d23)
    ensures Mixes(0x36339d50f9b539269f2c092dc4406d23, 0x3caaa3e8a99f9deb50f3af57adf622aa,
                  0xc81677bc9b7ac93b25027992b0261996)
  {}

  lemma Key128At6()
    ensures Expands(0x3caaa3e8a99f9deb50f3af57adf622aa, 0x3caaa3e8a99f9deb50f3af57adf622aa, 0x20,
                    0x5e390f7df7a69296a7553dc10aa31f6b)
  {}

  lemma Round128At6()
    ensures Substitutes(0xc81677bc9b7ac93b25027992b0261996, 0xe8dab6901477d4653ff7f5e2e747dd4f)
    ensures Mixes(0xe8dab6901477d4653ff7f5e2e747dd4f, 0x5e390f7df7a69296a7553dc10aa31f6b,
                  0xc62fe109f75eedc3cc79395d84f9cf5d)
  {}

  lemma Key128At7()
    ensures Expands(0x5e390f7df7a69296a7553dc10aa31f6b, 0x5e390f7df7a69296a7553dc10aa31f6b, 0x40,
                    0x14f9701ae35fe28c440adf4d4ea9c026)
  {}

  lemma Round128At7()
    ensures Substitutes(0xc62fe109f75eedc3cc79395d84f9cf5d, 0xb458124c68b68a014b99f82e5f15554c)
    ensures Mixes(0xb458124c68b68a014b99f82e5f15554c, 0x14f9701ae35fe28c440adf4d4ea9c026,
                  0xd1876c0f79c4300ab45594add66ff41f)
  {}

  lemma Key128At8()
    ensures Expands(0x14f9701ae35fe28c440adf4d4ea9c026, 0x14f9701ae35fe28c440adf4d4ea9c026, 0x80,
                    0x47438735a41c65b9e016baf4aebf7ad2)
  {}

  lemma Round128At8()
    ensures Substitutes(0xd1876c0f79c4300ab45594add66ff41f, 0x3e1c22c0b6fcbf768da85067f6170495)
    ensures Mixes(0x3e1c22c0b6fcbf768da85067f6170495, 0x47438735a41c65b9e016baf4aebf7ad2,
                  0xfde3bad205e5d0d73547964ef1fe37f1)
  {}

  lemma Key128At9()
    ensures Expands(0x47438735a41c65b9e016baf4aebf7ad2, 0x47438735a41c65b9e016baf4aebf7ad2, 0x1b,
                    0x549932d1f08557681093ed9cbe2c974e)
  {}

  lemma Round128At9()
    ensures Substitutes(0xfde3bad205e5d0d73547964ef1fe37f1, 0x54d990a16ba09ab596bbf40ea111702f)
    ensures Mixes(0x54d990a16ba09ab596bbf40ea111702f, 0x549932d1f08557681093ed9cbe2c974e,
                  0xbd6e7c3df2b5779e0b61216e8b10b689)
  {}

  lemma Key128At10()
    ensures Expands(0x549932d1f08557681093ed9cbe2c974e, 0x549932d1f08557681093ed9cbe2c974e, 0x36,
                    0x13111d7fe3944a17f307a78b4d2b30c5)
  {}

  lemma Round128At10()
    ensures Substitutes(0xbd6e7c3df2b5779e0b61216e8b10b689, 0x7ad5fda789ef4e272bca100b3d9ff59f)
    ensures Adds(0x13111d7fe3944a17f307a78b4d2b30c5, 0x7ad5fda789ef4e272bca100b3d9ff59f,
                 0x69c4e0d86a7b0430d8cdb78070b4c55a)
  {}

  lemma Half128(rk: seq<Word>)
    requires |rk| >= 44 && Expanded(rk, Key128(), 4, 44)
    ensures Key(rk, 5) == Block(0x3caaa3e8a99f9deb50f3af57adf622aa)
    ensures Rounds(rk, 5, Block(0x00112233445566778899aabbccddeeff)) == Block(0xc81677bc9b7ac93b25027992b0261996)
  {
    hide Key, Block, Expanded, XTimes, Hex, Expands, ExpandsInside, Substitutes, Mixes, Adds, Rounds, Cipher,
         Key128;
    First128(rk);
    var m := Block(0x00112233445566778899aabbccddeeff);
    Rcons();
    var k0: bv128 := 0x000102030405060708090a0b0c0d0e0f;
    var k1: bv128 := 0xd6aa74fdd2af72fadaa678f1d6ab76fe;
    var k2: bv128 := 0xb692cf0b643dbdf1be9bc5006830b3fe;
    var k3: bv128 := 0xb6ff744ed2c2c9bf6c590cbf0469bf41;
    var k4: bv128 := 0x47f7f7bc95353e03f96c32bcfd058dfd;
    var k5: bv128 := 0x3caaa3e8a99f9deb50f3af57adf622aa;
    var y0: bv128 := 0x00102030405060708090a0b0c0d0e0f0;
    var y1: bv128 := 0x89d810e8855ace682d1843d8cb128fe4;
    var y2: bv128 := 0x4915598f55e5d7a0daca94fa1f0a63f7;
    var y3: bv128 := 0xfa636a2825b339c940668a3157244d17;
    var y4: bv128 := 0x247240236966b3fa6ed2753288425b6c;
    var y5: bv128 := 0xc81677bc9b7ac93b25027992b0261996;
    var t1: bv128 := 0x6353e08c0960e104cd70b751bacad0e7;
    var t2: bv128 := 0xa7be1a6997ad739bd8c9ca451f618b61;
    var t3: bv128 := 0x3bd92268fc74fb735767cbe0c0590e2d;
    var t4: bv128 := 0x2d6d7ef03f33e334093602dd5bfb12c7;
    var t5: bv128 := 0x36339d50f9b539269f2c092dc4406d23;
    Round128At0();
    FirstState(rk, 0x00112233445566778899aabbccddeeff, k0, y0);
    Round128At1();
    Key128At1();
    OpeningKey(rk, Key128(), 4, 44, 1, 0, 0x01, k0, k0, k1);
    NextState(rk, 0, m, y0, t1, k1, y1);
    Round128At2();
    Key128At2();
    OpeningKey(rk, Key128(), 4, 44, 2, 1, 0x02, k1, k1, k2);
    NextState(rk, 1, m, y1, t2, k2, y2);
    Round128At3();
    Key128At3();
    OpeningKey(rk, Key128(), 4, 44, 3, 2, 0x04, k2, k2, k3);
    NextState(rk, 2, m, y2, t3, k3, y3);
    Round128At4();
    Key128At4();
    OpeningKey(rk, Key128(), 4, 44, 4, 3, 0x08, k3, k3, k4);
    NextState(rk, 3, m, y3, t4, k4, y4);
    Round128At5();
    Key128At5();
    OpeningKey(rk, Key128(), 4, 44, 5, 4, 0x10, k4, k4, k5);
    NextState(rk, 4, m, y4, t5, k5, y5);
  }

  /** The expanded key and the cipher on 00 11 22 ... ff. */
  lemma Cipher128(rk: seq<Word>)
    requires |rk| >= 44 && Expanded(rk, Key128(), 4, 44)
    ensures Cipher(rk, 10, Block(0x00112233445566778899aabbccddeeff)) == Block(0x69c4e0d86a7b0430d8cdb78070b4c55a)
  {
    hide Key, Block, Expanded, XTimes, Hex, Expands, ExpandsInside, Substitutes, Mixes, Adds, Rounds, Cipher,
         Key128;
    Half128(rk);
    var m := Block(0x00112233445566778899aabbccddeeff);
    Rcons();
    var k5: bv128 := 0x3caaa3e8a99f9deb50f3af57adf622aa;
    var k6: bv128 := 0x5e390f7df7a69296a7553dc10aa31f6b;
    var k7: bv128 := 0x14f9701ae35fe28c440adf4d4ea9c026;
    var k8: bv128 := 0x47438735a41c65b9e016baf4aebf7ad2;
    var k9: bv128 := 0x549932d1f08557681093ed9cbe2c974e;
    var k10: bv128 := 0x13111d7fe3944a17f307a78b4d2b30c5;
    var y5: bv128 := 0xc81677bc9b7ac93b25027992b0261996;
    var y6: bv128 := 0xc62fe109f75eedc3cc79395d84f9cf5d;
    var y7: bv128 := 0xd1876c0f79c4300ab45594add66ff41f;
    var y8: bv128 := 0xfde3bad205e5d0d73547964ef1fe37f1;
    var y9: bv128 := 0xbd6e7c3df2b5779e0b61216e8b10b689;
    var y10: bv128 := 0x69c4e0d86a7b0430d8cdb78070b4c55a;
    var t6: bv128 := 0xe8dab6901477d4653ff7f5e2e747dd4f;
    var t7: bv128 := 0xb458124c68b68a014b99f82e5f15554c;
    var t8: bv128 := 0x3e1c22c0b6fcbf768da85067f6170495;
    var t9: bv128 := 0x54d990a16ba09ab596bbf40ea111702f;
    var t10: bv128 := 0x7ad5fda789ef4e272bca100b3d9ff59f;
    Round128At6();
    Key128At6();
    OpeningKey(rk, Key128(), 4, 44, 6, 5, 0x20, k5, k5, k6);
    NextState(rk, 5, m, y5, t6, k6, y6);
    Round128At7();
    Key128At7();
    OpeningKey(rk, Key128(), 4, 44, 7, 6, 0x40, k6, k6, k7);
    NextState(rk, 6, m, y6, t7, k7, y7);
    Round128At8();
    Key128At8();
    OpeningKey(rk, Key128(), 4, 44, 8, 7, 0x80, k7, k7, k8);
    NextState(rk, 7, m, y7, t8, k8, y8);
    Round128At9();
    Key128At9();
    OpeningKey(rk, Key128(), 4, 44, 9, 8, 0x1b, k8, k8, k9);
    NextState(rk, 8, m, y8, t9, k9, y9);
    Round128At10();
    Key128At10();
    OpeningKey(rk, Key128(), 4, 44, 10, 9, 0x36, k9, k9, k10);
    LastState(rk, 10, m, y9, t10, k10, y10);
  }

  // ----- 256 bits -------------------------------------------------------------------------

  /** The key 00 01 02 ... 1f. */
  function Key256(): (r: seq<Byte>)
    ensures |r| == 32
  {
    Store(Block(0x000102030405060708090a0b0c0d0e0f)) + Store(Block(0x101112131415161718191a1b1c1d1e1f))
  }

  lemma First256(rk: seq<Word>)
    requires |rk| >= 60 && Expanded(rk, Key256(), 8, 60)
    ensures Key(rk, 0) == Block(0x000102030405060708090a0b0c0d0e0f)
    ensures Key(rk, 1) == Block(0x101112131415161718191a1b1c1d1e1f)
  {
    hide Expanded, Quarter, Column, Store, GetWord, Key;
    WordsOf(0x000102030405060708090a0b0c0d0e0f);
    WordsOf(0x101112131415161718191a1b1c1d1e1f);
    WordsOfBoth(Store(Block(0x000102030405060708090a0b0c0d0e0f)), Store(Block(0x101112131415161718191a1b1c1d1e1f)));
    FirstKey(rk, Key256(), 8, 60, 0, 0x000102030405060708090a0b0c0d0e0f);
    FirstKey(rk, Key256(), 8, 60, 1, 0x101112131415161718191a1b1c1d1e1f);
  }

  lemma Round256At0()
    ensures Adds(0x000102030405060708090a0b0c0d0e0f, 0x00112233445566778899aabbccddeeff,
                 0x00102030405060708090a0b0c0d0e0f0)
  {}

  lemma Round256At1()
    ensures Substitutes(0x00102030405060708090a0b0c0d0e0f0, 0x6353e08c0960e104cd70b751bacad0e7)
    ensures Mixes(0x6353e08c0960e104cd70b751bacad0e7, 0x101112131415161718191a1b1c1d1e1f,
                  0x4f63760643e0aa85efa7213201a4e705)
  {}

  lemma Key256At2()
    ensures Expands(0x000102030405060708090a0b0c0d0e0f, 0x101112131415161718191a1b1c1d1e1f, 0x01,
                    0xa573c29fa176c498a97fce93a572c09c)
  {}

  lemma Round256At2()
    ensures Substitutes(0x4f63760643e0aa85efa7213201a4e705, 0x84e1fd6b1a5c946fdf4938977cfbac23)
    ensures Mixes(0x84e1fd6b1a5c946fdf4938977cfbac23, 0xa573c29fa176c498a97fce93a572c09c,
                  0x1859fbc28a1c00a078ed8aadc42f6109)
  {}

  lemma Key256At3()
    ensures ExpandsInside(0x101112131415161718191a1b1c1d1e1f, 0xa573c29fa176c498a97fce93a572c09c,
                          0x1651a8cd0244beda1a5da4c10640bade)
  {}

  lemma Round256At3()
    ensures Substitutes(0x1859fbc28a1c00a078ed8aadc42f6109, 0xad9c7e017e55ef25bc150fe01ccb6395)
    ensures Mixes(0xad9c7e017e55ef25bc150fe01ccb6395, 0x1651a8cd0244beda1a5da4c10640bade,
                  0x975c66c1cb9f3fa8a93a28df8ee10f63)
  {}

  lemma Key256At4()
    ensures Expands(0xa573c29fa176c498a97fce93a572c09c, 0x1651a8cd0244beda1a5da4c10640bade, 0x02,
                    0xae87dff00ff11b68a68ed5fb03fc1567)
  {}

  lemma Round256At4()
    ensures Substitutes(0x975c66c1cb9f3fa8a93a28df8ee10f63, 0x88db34fb1f807678d3f833c2194a759e)
    ensures Mixes(0x88db34fb1f807678d3f833c2194a759e, 0xae87dff00ff11b68a68ed5fb03fc1567,
                  0x1c05f271a417e04ff921c5c104701554)
  {}

  lemma Key256At5()
    ensures ExpandsInside(0x1651a8cd0244beda1a5da4c10640bade, 0xae87dff00ff11b68a68ed5fb03fc1567,
                          0x6de1f1486fa54f9275f8eb5373b8518d)
  {}

  lemma Round256At5()
    ensures Substitutes(0x1c05f271a417e04ff921c5c104701554, 0x9cf0a62049fd59a399518984f26be178)
    ensures Mixes(0x9cf0a62049fd59a399518984f26be178, 0x6de1f1486fa54f9275f8eb5373b8518d,
                  0xc357aae11b45b7b0a2c7bd28a8dc99fa)
  {}

  lemma Key256At6()
    ensures Expands(0xae87dff00ff11b68a68ed5fb03fc1567, 0x6de1f1486fa54f9275f8eb5373b8518d, 0x04,
                    0xc656827fc9a799176f294cec6cd5598b)
  {}

  lemma Round256At6()
    ensures Substitutes(0xc357aae11b45b7b0a2c7bd28a8dc99fa, 0x2e6e7a2dafc6eef83a86ace7c25ba934)
    ensures Mixes(0x2e6e7a2dafc6eef83a86ace7c25ba934, 0xc656827fc9a799176f294cec6cd5598b,
                  0x7f074143cb4e243ec10c815d8375d54c)
  {}

  lemma Key256At7()
    ensures ExpandsInside(0x6de1f1486fa54f9275f8eb5373b8518d, 0xc656827fc9a799176f294cec6cd5598b,
                          0x3de23a75524775e727bf9eb45407cf39)
  {}

  lemma Round256At7()
    ensures Substitutes(0x7f074143cb4e243ec10c815d8375d54c, 0xd22f0c291ffe031a789d83b2ecc5364c)
    ensures Mixes(0xd22f0c291ffe031a789d83b2ecc5364c, 0x3de23a75524775e727bf9eb45407cf39,
                  0xd653a4696ca0bc0f5acaab5db96c5e7d)
  {}

  lemma Key256At8()
    ensures Expands(0xc656827fc9a799176f294cec6cd5598b, 0x3de23a75524775e727bf9eb45407cf39, 0x08,
                    0x0bdc905fc27b0948ad5245a4c1871c2f)
  {}

  lemma Round256At8()
    ensures Substitutes(0xd653a4696ca0bc0f5acaab5db96c5e7d, 0xf6e062ff507458f9be50497656ed654c)
    ensures Mixes(0xf6e062ff507458f9be50497656ed654c, 0x0bdc905fc27b0948ad5245a4c1871c2f,
                  0x5aa858395fd28d7d05e1a38868f3b9c5)
  {}

  lemma Key256At9()
    ensures ExpandsInside(0x3de23a75524775e727bf9eb45407cf39, 0x0bdc905fc27b0948ad5245a4c1871c2f,
                          0x45f5a66017b2d387300d4d33640a820a)
  {}

  lemma Round256At9()
    ensures Substitutes(0x5aa858395fd28d7d05e1a38868f3b9c5, 0xbeb50aa6cff856126b0d6aff45c25dc4)
    ensures Mixes(0xbeb50aa6cff856126b0d6aff45c25dc4, 0x45f5a66017b2d387300d4d33640a820a,
                  0x4a824851c57e7e47643de50c2af3e8c9)
  {}

  lemma Key256At10()
    ensures Expands(0x0bdc905fc27b0948ad5245a4c1871c2f, 0x45f5a66017b2d387300d4d33640a820a, 0x10,
                    0x7ccff71cbeb4fe5413e6bbf0d261a7df)
  {}

  lemma Round256At10()
    ensures Substitutes(0x4a824851c57e7e47643de50c2af3e8c9, 0xd6f3d9dda6279bd1430d52a0e513f3fe)
    ensures Mixes(0xd6f3d9dda6279bd1430d52a0e513f3fe, 0x7ccff71cbeb4fe5413e6bbf0d261a7df,
                  0xc14907f6ca3b3aa070e9aa313b52b5ec)
  {}

  lemma Key256At11()
    ensures ExpandsInside(0x45f5a66017b2d387300d4d33640a820a, 0x7ccff71cbeb4fe5413e6bbf0d261a7df,
                          0xf01afafee7a82979d7a5644ab3afe640)
  {}

  lemma Round256At11()
    ensures Substitutes(0xc14907f6ca3b3aa070e9aa313b52b5ec, 0x78e2acce741ed5425100c5e0e23b80c7)
    ensures Mixes(0x78e2acce741ed5425100c5e0e23b80c7, 0xf01afafee7a82979d7a5644ab3afe640,
                  0x5f9c6abfbac634aa50409fa766677653)
  {}

  lemma Key256At12()
    ensures Expands(0x7ccff71cbeb4fe5413e6bbf0d261a7df, 0xf01afafee7a82979d7a5644ab3afe640, 0x20,
                    0x2541fe719bf500258813bbd55a721c0a)
  {}

  lemma Round256At12()
    ensures Substitutes(0x5f9c6abfbac634aa50409fa766677653, 0xcfb4dbedf4093808538502ac33de185c)
    ensures Mixes(0xcfb4dbedf4093808538502ac33de185c, 0x2541fe719bf500258813bbd55a721c0a,
                  0x516604954353950314fb86e401922521)
  {}

  lemma Key256At13()
    ensures ExpandsInside(0xf01afafee7a82979d7a5644ab3afe640, 0x2541fe719bf500258813bbd55a721c0a,
                          0x4e5a6699a9f24fe07e572baacdf8cdea)
  {}

  lemma Round256At13()
    ensures Substitutes(0x516604954353950314fb86e401922521, 0xd1ed44fd1a0f3f2afa4ff27b7c332a69)
    ensures Mixes(0xd1ed44fd1a0f3f2afa4ff27b7c332a69, 0x4e5a6699a9f24fe07e572baacdf8cdea,
                  0x627bceb9999d5aaac945ecf423f56da5)
  {}

  lemma Key256At14()
    ensures Expands(0x2541fe719bf500258813bbd55a721c0a, 0x4e5a6699a9f24fe07e572baacdf8cdea, 0x40,
                    0x24fc79ccbf0979e9371ac23c6d68de36)
  {}

  lemma Round256At14()
    ensures Substitutes(0x627bceb9999d5aaac945ecf423f56da5, 0xaa5ece06ee6e3c56dde68bac2621bebf)
    ensures Adds(0x24fc79ccbf0979e9371ac23c6d68de36, 0xaa5ece06ee6e3c56dde68bac2621bebf,
                 0x8ea2b7ca516745bfeafc49904b496089)
  {}

  lemma Half256(rk: seq<Word>)
    requires |rk| >= 60 && Expanded(rk, Key256(), 8, 60)
    ensures Key(rk, 7) == Block(0x3de23a75524775e727bf9eb45407cf39)
    ensures Key(rk, 6) == Block(0xc656827fc9a799176f294cec6cd5598b)
    ensures Rounds(rk, 7, Block(0x00112233445566778899aabbccddeeff)) == Block(0xd653a4696ca0bc0f5acaab5db96c5e7d)
  {
    hide Key, Block, Expanded, XTimes, Hex, Expands, ExpandsInside, Substitutes, Mixes, Adds, Rounds, Cipher,
         Key256;
    First256(rk);
    var m := Block(0x00112233445566778899aabbccddeeff);
    Rcons();
    var k0: bv128 := 0x000102030405060708090a0b0c0d0e0f;
    var k1: bv128 := 0x101112131415161718191a1b1c1d1e1f;
    var k2: bv128 := 0xa573c29fa176c498a97fce93a572c09c;
    var k3: bv128 := 0x1651a8cd0244beda1a5da4c10640bade;
    var k4: bv128 := 0xae87dff00ff11b68a68ed5fb03fc1567;
    var k5: bv128 := 0x6de1f1486fa54f9275f8eb5373b8518d;
    var k6: bv128 := 0xc656827fc9a799176f294cec6cd5598b;
    var k7: bv128 := 0x3de23a75524775e727bf9eb45407cf39;
    var y0: bv128 := 0x00102030405060708090a0b0c0d0e0f0;
    var y1: bv128 := 0x4f63760643e0aa85efa7213201a4e705;
    var y2: bv128 := 0x1859fbc28a1c00a078ed8aadc42f6109;
    var y3: bv128 := 0x975c66c1cb9f3fa8a93a28df8ee10f63;
    var y4: bv128 := 0x1c05f271a417e04ff921c5c104701554;
    var y5: bv128 := 0xc357aae11b45b7b0a2c7bd28a8dc99fa;
    var y6: bv128 := 0x7f074143cb4e243ec10c815d8375d54c;
    var y7: bv128 := 0xd653a4696ca0bc0f5acaab5db96c5e7d;
    var t1: bv128 := 0x6353e08c0960e104cd70b751bacad0e7;
    var t2: bv128 := 0x84e1fd6b1a5c946fdf4938977cfbac23;
    var t3: bv128 := 0xad9c7e017e55ef25bc150fe01ccb6395;
    var t4: bv128 := 0x88db34fb1f807678d3f833c2194a759e;
    var t5: bv128 := 0x9cf0a62049fd59a399518984f26be178;
    var t6: bv128 := 0x2e6e7a2dafc6eef83a86ace7c25ba934;
    var t7: bv128 := 0xd22f0c291ffe031a789d83b2ecc5364c;
    Round256At0();
    FirstState(rk, 0x00112233445566778899aabbccddeeff, k0, y0);
    Round256At1();
    NextState(rk, 0, m, y0, t1, k1, y1);
    Round256At2();
    Key256At2();
    OpeningKey(rk, Key256(), 8, 60, 2, 0, 0x01, k0, k1, k2);
    NextState(rk, 1, m, y1, t2, k2, y2);
    Round256At3();
    Key256At3();
    MiddleKey(rk, Key256(), 60, 3, k1, k2, k3);
    NextState(rk, 2, m, y2, t3, k3, y3);
    Round256At4();
    Key256At4();
    OpeningKey(rk, Key256(), 8, 60, 4, 1, 0x02, k2, k3, k4);
    NextState(rk, 3, m, y3, t4, k4, y4);
    Round256At5();
    Key256At5();
    MiddleKey(rk, Key256(), 60, 5, k3, k4, k5);
    NextState(rk, 4, m, y4, t5, k5, y5);
    Round256At6();
    Key256At6();
    OpeningKey(rk, Key256(), 8, 60, 6, 2, 0x04, k4, k5, k6);
    NextState(rk, 5, m, y5, t6, k6, y6);
    Round256At7();
    Key256At7();
    MiddleKey(rk, Key256(), 60, 7, k5, k6, k7);
    NextState(rk, 6, m, y6, t7, k7, y7);
  }

  /** The expanded key and the cipher on 00 11 22 ... ff. */
  lemma Cipher256(rk: seq<Word>)
    requires |rk| >= 60 && Expanded(rk, Key256(), 8, 60)
    ensures Cipher(rk, 14, Block(0x00112233445566778899aabbccddeeff)) == Block(0x8ea2b7ca516745bfeafc49904b496089)
  {
    hide Key, Block, Expanded, XTimes, Hex, Expands, ExpandsInside, Substitutes, Mixes, Adds, Rounds, Cipher,
         Key256;
    Half256(rk);
    var m := Block(0x00112233445566778899aabbccddeeff);
    Rcons();
    var k6: bv128 := 0xc656827fc9a799176f294cec6cd5598b;
    var k7: bv128 := 0x3de23a75524775e727bf9eb45407cf39;
    var k8: bv128 := 0x0bdc905fc27b0948ad5245a4c1871c2f;
    var k9: bv128 := 0x45f5a66017b2d387300d4d33640a820a;
    var k10: bv128 := 0x7ccff71cbeb4fe5413e6bbf0d261a7df;
    var k11: bv128 := 0xf01afafee7a82979d7a5644ab3afe640;
    var k12: bv128 := 0x2541fe719bf500258813bbd55a721c0a;
    var k13: bv128 := 0x4e5a6699a9f24fe07e572baacdf8cdea;
    var k14: bv128 := 0x24fc79ccbf0979e9371ac23c6d68de36;
    var y7: bv128 := 0xd653a4696ca0bc0f5acaab5db96c5e7d;
    var y8: bv128 := 0x5aa858395fd28d7d05e1a38868f3b9c5;
    var y9: bv128 := 0x4a824851c57e7e47643de50c2af3e8c9;
    var y10: bv128 := 0xc14907f6ca3b3aa070e9aa313b52b5ec;
    var y11: bv128 := 0x5f9c6abfbac634aa50409fa766677653;
    var y12: bv128 := 0x516604954353950314fb86e401922521;
    var y13: bv128 := 0x627bceb9999d5aaac945ecf423f56da5;
    var y14: bv128 := 0x8ea2b7ca516745bfeafc49904b496089;
    var t8: bv128 := 0xf6e062ff507458f9be50497656ed654c;
    var t9: bv128 := 0xbeb50aa6cff856126b0d6aff45c25dc4;
    var t10: bv128 := 0xd6f3d9dda6279bd1430d52a0e513f3fe;
    var t11: bv128 := 0x78e2acce741ed5425100c5e0e23b80c7;
    var t12: bv128 := 0xcfb4dbedf4093808538502ac33de185c;
    var t13: bv128 := 0xd1ed44fd1a0f3f2afa4ff27b7c332a69;
    var t14: bv128 := 0xaa5ece06ee6e3c56dde68bac2621bebf;
    Round256At8();
    Key256At8();
    OpeningKey(rk, Key256(), 8, 60, 8, 3, 0x08, k6, k7, k8);
    NextState(rk, 7, m, y7, t8, k8, y8);
    Round256At9();
    Key256At9();
    MiddleKey(rk, Key256(), 60, 9, k7, k8, k9);
    NextState(rk, 8, m, y8, t9, k9, y9);
    Round256At10();
    Key256At10();
    OpeningKey(rk, Key256(), 8, 60, 10, 4, 0x10, k8, k9, k10);
    NextState(rk, 9, m, y9, t10, k10, y10);
    Round256At11();
    Key256At11();
    MiddleKey(rk, Key256(), 60, 11, k9, k10, k11);
    NextState(rk, 10, m, y10, t11, k11, y11);
    Round256At12();
    Key256At12();
    OpeningKey(rk, Key256(), 8, 60, 12, 5, 0x20, k10, k11, k12);
    NextState(rk, 11, m, y11, t12, k12, y12);
    Round256At13();
    Key256At13();
    MiddleKey(rk, Key256(), 60, 13, k11, k12, k13);
    NextState(rk, 12, m, y12, t13, k13, y13);
    Round256At14();
    Key256At14();
    OpeningKey(rk, Key256(), 8, 60, 14, 6, 0x40, k12, k13, k14);
    LastState(rk, 14, m, y13, t14, k14, y14);
  }

  // ----- the class ------------------------------------------------------------------------

  /** Tables generated, the 128-bit key set, and the block encrypted. */
  method Example() returns (output: array<Byte>)
    ensures fresh(output) && output[..] == Store(Block(0x69c4e0d86a7b0430d8cdb78070b4c55a))
  {
    hide Store, Block, Cipher, Expanded, InverseSchedule, TableSet.Ready, Key128;
    var t := MakeTables();
    var ctx := new Context(t);
    var r := ctx.SetKey(Key128(), 128);
    var b := Store(Block(0x00112233445566778899aabbccddeeff));
    var input := new Byte[16](i requires 0 <= i < 16 => b[i]);
    output := new Byte[16];
    assert input[0..16] == b;
    ctx.Encrypt(input, 0, output, 0);
    Cipher128(ctx.erk[..]);
  }
}
