/** The example of appendix B.1 of FIPS 180-2: the digest of "abc". */
module Sha256Answers {
  import opened Bits
  import opened Words
  import opened BlockHash
  import opened BitVectors
  import opened HashAnswers
  import opened Sha256

  // ----- the functions of the standard on constants ---------------------------------------

  function Sum0(x: bv32): (r: bv32) {
    BXor(BXor((x >> 2) | (x << 30), (x >> 13) | (x << 19)), (x >> 22) | (x << 10))
  }

  function Sum1(x: bv32): (r: bv32) {
    BXor(BXor((x >> 6) | (x << 26), (x >> 11) | (x << 21)), (x >> 25) | (x << 7))
  }

  function Small0(x: bv32): (r: bv32) { BXor(BXor((x >> 7) | (x << 25), (x >> 18) | (x << 14)), x >> 3) }

  function Small1(x: bv32): (r: bv32) { BXor(BXor((x >> 17) | (x << 15), (x >> 19) | (x << 13)), x >> 10) }

  function Choose(x: bv32, y: bv32, z: bv32): (r: bv32) { BXor(BAnd(x, y), BAnd(BXor(x, 0xffffffff), z)) }

  function Most(x: bv32, y: bv32, z: bv32): (r: bv32) { BXor(BXor(BAnd(x, y), BAnd(x, z)), BAnd(y, z)) }

  lemma Sum0Hex(x: bv32)
    ensures BigSigma0(Hex(x)) == Hex(Sum0(x))
  {
    hide Hex, Xor, RotR, BXor, Turns;
    Turn2(x);
    TurnsHex(x, 2);
    Turn13(x);
    TurnsHex(x, 13);
    Turn22(x);
    TurnsHex(x, 22);
    XorHex(Turns(x, 2), Turns(x, 13));
    XorHex(BXor(Turns(x, 2), Turns(x, 13)), Turns(x, 22));
  }

  lemma Sum1Hex(x: bv32)
    ensures BigSigma1(Hex(x)) == Hex(Sum1(x))
  {
    hide Hex, Xor, RotR, BXor, Turns;
    Turn6(x);
    TurnsHex(x, 6);
    Turn11(x);
    TurnsHex(x, 11);
    Turn25(x);
    TurnsHex(x, 25);
    XorHex(Turns(x, 6), Turns(x, 11));
    XorHex(BXor(Turns(x, 6), Turns(x, 11)), Turns(x, 25));
  }

  lemma Small0Hex(x: bv32)
    ensures SmallSigma0(Hex(x)) == Hex(Small0(x))
  {
    hide Hex, Xor, RotR, Shr, BXor, Turns, Down;
    Small0Down(x);
    ShrHex(x, 3);
    Turn7(x);
    TurnsHex(x, 7);
    Turn18(x);
    TurnsHex(x, 18);
    XorHex(Turns(x, 7), Turns(x, 18));
    XorHex(BXor(Turns(x, 7), Turns(x, 18)), Down(x, 3));
  }

  lemma Small0Down(x: bv32)
    ensures Down(x, 3) == x >> 3
  {}

  lemma Small1Hex(x: bv32)
    ensures SmallSigma1(Hex(x)) == Hex(Small1(x))
  {
    hide Hex, Xor, RotR, Shr, BXor, Turns, Down;
    Small1Down(x);
    ShrHex(x, 10);
    Turn17(x);
    TurnsHex(x, 17);
    Turn19(x);
    TurnsHex(x, 19);
    XorHex(Turns(x, 17), Turns(x, 19));
    XorHex(BXor(Turns(x, 17), Turns(x, 19)), Down(x, 10));
  }

  lemma Small1Down(x: bv32)
    ensures Down(x, 10) == x >> 10
  {
    hide Down;
    DownEight(x);
    DownTwo(Eight(x));
    DownDown(x, 8, 2);
  }

  lemma DownTwo(x: bv32)
    ensures Down(x, 2) == x >> 2
  {}

  lemma ChooseHex(x: bv32, y: bv32, z: bv32)
    ensures Ch(Hex(x), Hex(y), Hex(z)) == Hex(Choose(x, y, z))
  {
    hide Hex, Xor, And, Not, BXor, BAnd;
    NotHex(x);
    AndHex(x, y);
    AndHex(BXor(x, 0xffffffff), z);
    XorHex(BAnd(x, y), BAnd(BXor(x, 0xffffffff), z));
  }

  lemma MostHex(x: bv32, y: bv32, z: bv32)
    ensures Maj(Hex(x), Hex(y), Hex(z)) == Hex(Most(x, y, z))
  {
    hide Hex, Xor, And, BXor, BAnd;
    AndHex(x, y);
    AndHex(x, z);
    AndHex(y, z);
    XorHex(BAnd(x, y), BAnd(x, z));
    XorHex(BXor(BAnd(x, y), BAnd(x, z)), BAnd(y, z));
  }

  function First(e: bv32, f: bv32, g: bv32, h: bv32, w: bv32, k: bv32): (r: bv32) {
    BAdd(BAdd(BAdd(BAdd(h, Sum1(e)), Choose(e, f, g)), k), w)
  }

  function Second(a: bv32, b: bv32, c: bv32): (r: bv32) { BAdd(Sum0(a), Most(a, b, c)) }

  lemma FirstHex(e: bv32, f: bv32, g: bv32, h: bv32, w: bv32, k: bv32)
    ensures Add(Add(Add(Add(Hex(h), BigSigma1(Hex(e))), Ch(Hex(e), Hex(f), Hex(g))), Hex(k)), Hex(w))
         == Hex(First(e, f, g, h, w, k))
  {
    hide Hex, Add, BigSigma1, Ch, BAdd, Sum1, Choose;
    Sum1Hex(e);
    ChooseHex(e, f, g);
    AddHex(h, Sum1(e));
    AddHex(BAdd(h, Sum1(e)), Choose(e, f, g));
    AddHex(BAdd(BAdd(h, Sum1(e)), Choose(e, f, g)), k);
    AddHex(BAdd(BAdd(BAdd(h, Sum1(e)), Choose(e, f, g)), k), w);
  }

  lemma SecondHex(a: bv32, b: bv32, c: bv32)
    ensures Add(BigSigma0(Hex(a)), Maj(Hex(a), Hex(b), Hex(c))) == Hex(Second(a, b, c))
  {
    hide Hex, Add, BigSigma0, Maj, BAdd, Sum0, Most;
    Sum0Hex(a);
    MostHex(a, b, c);
    AddHex(Sum0(a), Most(a, b, c));
  }

  // ----- a round and a word of the schedule -----------------------------------------------

  function Of(a: bv32, b: bv32, c: bv32, d: bv32, e: bv32, f: bv32, g: bv32, h: bv32): (r: Regs) {
    Regs(Hex(a), Hex(b), Hex(c), Hex(d), Hex(e), Hex(f), Hex(g), Hex(h))
  }

  /** Word `t` of the schedule, and the state before round `t`. */
  predicate WordIs(m: Block, t: nat, w: bv32) { t < 64 && Schedule(m, t) == Hex(w) }

  predicate StateIs(m: Block, t: nat, a: bv32, b: bv32, c: bv32, d: bv32, e: bv32, f: bv32, g: bv32,
                    h: bv32) {
    t <= 64 && Rounds(Initial(), m, t) == Of(a, b, c, d, e, f, g, h)
  }

  /** One round, from its word and constant: the new values of `a` and `e`. */
  lemma NextState(m: Block, t: nat, a: bv32, b: bv32, c: bv32, d: bv32, e: bv32, f: bv32, g: bv32, h: bv32,
                  k: bv32, w: bv32, x: bv32, y: bv32)
    requires WordIs(m, t, w) && K[t] == k && StateIs(m, t, a, b, c, d, e, f, g, h)
    requires First(e, f, g, h, w, k) == y - d && BAdd(y - d, Second(a, b, c)) == x
    ensures StateIs(m, t + 1, x, a, b, c, y, e, f, g)
  {
    hide Hex, Add, BigSigma0, BigSigma1, Ch, Maj, BAdd, First, Second, Schedule, Rounds, K, Initial;
    NextRound(Initial(), m, t);
    FirstHex(e, f, g, h, w, k);
    SecondHex(a, b, c);
    AddHex(First(e, f, g, h, w, k), Second(a, b, c));
    AddHex(d, First(e, f, g, h, w, k));
    BackAgain(d, y);
  }

  lemma NextWord(m: Block, t: nat, w16: bv32, w15: bv32, w7: bv32, w2: bv32, w: bv32)
    requires 16 <= t < 64 && WordIs(m, t - 16, w16) && WordIs(m, t - 15, w15) && WordIs(m, t - 7, w7)
             && WordIs(m, t - 2, w2)
    requires BAdd(BAdd(BAdd(Small1(w2), w7), Small0(w15)), w16) == w
    ensures WordIs(m, t, w)
  {
    hide Hex, Add, SmallSigma0, SmallSigma1, BAdd, Small0, Small1, LoadBig;
    Small1Hex(w2);
    Small0Hex(w15);
    AddHex(Small1(w2), w7);
    AddHex(BAdd(Small1(w2), w7), Small0(w15));
    AddHex(BAdd(BAdd(Small1(w2), w7), Small0(w15)), w16);
  }

  // ----- the block ------------------------------------------------------------------------

  /** "abc" with its padding and its length. */
  function Abc(): (b: Block) {
    hide Padding, LengthField, Code;
    PaddingOfThree();
    ABC + Padding(3) + LengthField(3)
  }

  lemma AbcBytes()
    ensures Abc()[..4] == [Code(0x61), Code(0x62), Code(0x63), Code(0x80)]
    ensures (forall i :: 4 <= i < 63 ==> Abc()[i] == Code(0)) && Abc()[63] == Code(0x18)
  {
    hide Code, Padding, LengthField;
    PaddingOfThree();
    LengthBytes();
    ThreeParts(ABC, Padding(3), LengthField(3));
  }

  lemma LengthBytes()
    ensures LengthField(3) == [Code(0), Code(0), Code(0), Code(0), Code(0), Code(0), Code(0), Code(0x18)]
  {
    hide Code, StoreBig, FromNat, Hex;
    SameWord(0, 0);
    SameWord(24, 0x18);
    StoredHex(0);
    StoredHex(0x18);
    assert Eight(0) == 0 && Eight(0x18) == 0;
  }

  /** The first sixteen words: 61 62 63 80, zeros, and 24 bits. */
  predicate Opening(m: Block) {
    WordIs(m, 0, 0x61626380) && (forall t :: 1 <= t < 15 ==> WordIs(m, t, 0)) && WordIs(m, 15, 0x18)
  }

  lemma OpeningOfAbc()
    ensures Opening(Abc())
  {
    hide WordIs;
    FirstWord();
    forall t | 1 <= t < 15 ensures WordIs(Abc(), t, 0) { ZeroWord(t); }
    LastWord();
  }

  lemma Words0(m: Block)
    requires Opening(m)
    ensures WordIs(m, 0, 0x61626380) && WordIs(m, 1, 0)
    ensures WordIs(m, 2, 0) && WordIs(m, 3, 0)
    ensures WordIs(m, 4, 0) && WordIs(m, 5, 0)
    ensures WordIs(m, 6, 0) && WordIs(m, 7, 0)
  {
    hide WordIs;
  }

  lemma Words1(m: Block)
    requires Opening(m)
    ensures WordIs(m, 8, 0) && WordIs(m, 9, 0)
    ensures WordIs(m, 10, 0) && WordIs(m, 11, 0)
    ensures WordIs(m, 12, 0) && WordIs(m, 13, 0)
    ensures WordIs(m, 14, 0) && WordIs(m, 15, 0x00000018)
  {
    hide WordIs;
  }

  lemma FirstWord()
    ensures WordIs(Abc(), 0, 0x61626380)
  {
    hide Code, Hex, Abc, LoadBig;
    AbcBytes();
    SameLow(0x61626380, 0x80);
    SameLow(0x616263, 0x63);
    SameLow(0x6162, 0x62);
    BigHex(Abc()[0..4], 0x61626380);
  }

  lemma ZeroWord(t: nat)
    requires 1 <= t < 15
    ensures WordIs(Abc(), t, 0)
  {
    hide Code, Hex, Abc, LoadBig;
    AbcBytes();
    BigHex(Abc()[4 * t..4 * t + 4], 0);
  }

  lemma LastWord()
    ensures WordIs(Abc(), 15, 0x18)
  {
    hide Code, Hex, Abc, LoadBig;
    AbcBytes();
    BigHex(Abc()[60..64], 0x18);
  }

  // ----- the rest of the schedule ---------------------------------------------------------

  lemma Words2(m: Block)
    requires Opening(m)
    ensures WordIs(m, 16, 0x61626380) && WordIs(m, 17, 0x000f0000)
    ensures WordIs(m, 18, 0x7da86405) && WordIs(m, 19, 0x600003c6)
    ensures WordIs(m, 20, 0x3e9d7b78) && WordIs(m, 21, 0x0183fc00)
    ensures WordIs(m, 22, 0x12dcbfdb) && WordIs(m, 23, 0xe2e2c38e)
  {
    hide WordIs, Opening;
    Words0(m);
    Words1(m);
    NextWord(m, 16, 0x61626380, 0, 0, 0, 0x61626380);
    NextWord(m, 17, 0, 0, 0, 0x00000018, 0x000f0000);
    NextWord(m, 18, 0, 0, 0, 0x61626380, 0x7da86405);
    NextWord(m, 19, 0, 0, 0, 0x000f0000, 0x600003c6);
    NextWord(m, 20, 0, 0, 0, 0x7da86405, 0x3e9d7b78);
    NextWord(m, 21, 0, 0, 0, 0x600003c6, 0x0183fc00);
    NextWord(m, 22, 0, 0, 0x00000018, 0x3e9d7b78, 0x12dcbfdb);
    NextWord(m, 23, 0, 0, 0x61626380, 0x0183fc00, 0xe2e2c38e);
  }

  lemma Words3(m: Block)
    requires Opening(m)
    ensures WordIs(m, 24, 0xc8215c1a) && WordIs(m, 25, 0xb73679a2)
    ensures WordIs(m, 26, 0xe5bc3909) && WordIs(m, 27, 0x32663c5b)
    ensures WordIs(m, 28, 0x9d209d67) && WordIs(m, 29, 0xec8726cb)
    ensures WordIs(m, 30, 0x702138a4) && WordIs(m, 31, 0xd3b7973b)
  {
    hide WordIs, Opening;
    Words1(m);
    Words2(m);
    NextWord(m, 24, 0, 0, 0x000f0000, 0x12dcbfdb, 0xc8215c1a);
    NextWord(m, 25, 0, 0, 0x7da86405, 0xe2e2c38e, 0xb73679a2);
    NextWord(m, 26, 0, 0, 0x600003c6, 0xc8215c1a, 0xe5bc3909);
    NextWord(m, 27, 0, 0, 0x3e9d7b78, 0xb73679a2, 0x32663c5b);
    NextWord(m, 28, 0, 0, 0x0183fc00, 0xe5bc3909, 0x9d209d67);
    NextWord(m, 29, 0, 0, 0x12dcbfdb, 0x32663c5b, 0xec8726cb);
    NextWord(m, 30, 0, 0x00000018, 0xe2e2c38e, 0x9d209d67, 0x702138a4);
    NextWord(m, 31, 0x00000018, 0x61626380, 0xc8215c1a, 0xec8726cb, 0xd3b7973b);
  }

  lemma Words4(m: Block)
    requires Opening(m)
    ensures WordIs(m, 32, 0x93f5997f) && WordIs(m, 33, 0x3b68ba73)
    ensures WordIs(m, 34, 0xaff4ffc1) && WordIs(m, 35, 0xf10a5c62)
    ensures WordIs(m, 36, 0x0a8b3996) && WordIs(m, 37, 0x72af830a)
    ensures WordIs(m, 38, 0x9409e33e) && WordIs(m, 39, 0x24641522)
  {
    hide WordIs, Opening;
    Words2(m);
    Words3(m);
    NextWord(m, 32, 0x61626380, 0x000f0000, 0xb73679a2, 0x702138a4, 0x93f5997f);
    NextWord(m, 33, 0x000f0000, 0x7da86405, 0xe5bc3909, 0xd3b7973b, 0x3b68ba73);
    NextWord(m, 34, 0x7da86405, 0x600003c6, 0x32663c5b, 0x93f5997f, 0xaff4ffc1);
    NextWord(m, 35, 0x600003c6, 0x3e9d7b78, 0x9d209d67, 0x3b68ba73, 0xf10a5c62);
    NextWord(m, 36, 0x3e9d7b78, 0x0183fc00, 0xec8726cb, 0xaff4ffc1, 0x0a8b3996);
    NextWord(m, 37, 0x0183fc00, 0x12dcbfdb, 0x702138a4, 0xf10a5c62, 0x72af830a);
    NextWord(m, 38, 0x12dcbfdb, 0xe2e2c38e, 0xd3b7973b, 0x0a8b3996, 0x9409e33e);
    NextWord(m, 39, 0xe2e2c38e, 0xc8215c1a, 0x93f5997f, 0x72af830a, 0x24641522);
  }

  lemma Words5(m: Block)
    requires Opening(m)
    ensures WordIs(m, 40, 0x9f47bf94) && WordIs(m, 41, 0xf0a64f5a)
    ensures WordIs(m, 42, 0x3e246a79) && WordIs(m, 43, 0x27333ba3)
    ensures WordIs(m, 44, 0x0c4763f2) && WordIs(m, 45, 0x840abf27)
    ensures WordIs(m, 46, 0x7a290d5d) && WordIs(m, 47, 0x065c43da)
  {
    hide WordIs, Opening;
    Words3(m);
    Words4(m);
    NextWord(m, 40, 0xc8215c1a, 0xb73679a2, 0x3b68ba73, 0x9409e33e, 0x9f47bf94);
    NextWord(m, 41, 0xb73679a2, 0xe5bc3909, 0xaff4ffc1, 0x24641522, 0xf0a64f5a);
    NextWord(m, 42, 0xe5bc3909, 0x32663c5b, 0xf10a5c62, 0x9f47bf94, 0x3e246a79);
    NextWord(m, 43, 0x32663c5b, 0x9d209d67, 0x0a8b3996, 0xf0a64f5a, 0x27333ba3);
    NextWord(m, 44, 0x9d209d67, 0xec8726cb, 0x72af830a, 0x3e246a79, 0x0c4763f2);
    NextWord(m, 45, 0xec8726cb, 0x702138a4, 0x9409e33e, 0x27333ba3, 0x840abf27);
    NextWord(m, 46, 0x702138a4, 0xd3b7973b, 0x24641522, 0x0c4763f2, 0x7a290d5d);
    NextWord(m, 47, 0xd3b7973b, 0x93f5997f, 0x9f47bf94, 0x840abf27, 0x065c43da);
  }

  lemma Words6(m: Block)
    requires Opening(m)
    ensures WordIs(m, 48, 0xfb3e89cb) && WordIs(m, 49, 0xcc7617db)
    ensures WordIs(m, 50, 0xb9e66c34) && WordIs(m, 51, 0xa9993667)
    ensures WordIs(m, 52, 0x84badedd) && WordIs(m, 53, 0xc21462bc)
    ensures WordIs(m, 54, 0x1487472c) && WordIs(m, 55, 0xb20f7a99)
  {
    hide WordIs, Opening;
    Words4(m);
    Words5(m);
    NextWord(m, 48, 0x93f5997f, 0x3b68ba73, 0xf0a64f5a, 0x7a290d5d, 0xfb3e89cb);
    NextWord(m, 49, 0x3b68ba73, 0xaff4ffc1, 0x3e246a79, 0x065c43da, 0xcc7617db);
    NextWord(m, 50, 0xaff4ffc1, 0xf10a5c62, 0x27333ba3, 0xfb3e89cb, 0xb9e66c34);
    NextWord(m, 51, 0xf10a5c62, 0x0a8b3996, 0x0c4763f2, 0xcc7617db, 0xa9993667);
    NextWord(m, 52, 0x0a8b3996, 0x72af830a, 0x840abf27, 0xb9e66c34, 0x84badedd);
    NextWord(m, 53, 0x72af830a, 0x9409e33e, 0x7a290d5d, 0xa9993667, 0xc21462bc);
    NextWord(m, 54, 0x9409e33e, 0x24641522, 0x065c43da, 0x84badedd, 0x1487472c);
    NextWord(m, 55, 0x24641522, 0x9f47bf94, 0xfb3e89cb, 0xc21462bc, 0xb20f7a99);
  }

  lemma Words7(m: Block)
    requires Opening(m)
    ensures WordIs(m, 56, 0xef57b9cd) && WordIs(m, 57, 0xebe6b238)
    ensures WordIs(m, 58, 0x9fe3095e) && WordIs(m, 59, 0x78bc8d4b)
    ensures WordIs(m, 60, 0xa43fcf15) && WordIs(m, 61, 0x668b2ff8)
    ensures WordIs(m, 62, 0xeeaba2cc) && WordIs(m, 63, 0x12b1edeb)
  {
    hide WordIs, Opening;
    Words5(m);
    Words6(m);
    NextWord(m, 56, 0x9f47bf94, 0xf0a64f5a, 0xcc7617db, 0x1487472c, 0xef57b9cd);
    NextWord(m, 57, 0xf0a64f5a, 0x3e246a79, 0xb9e66c34, 0xb20f7a99, 0xebe6b238);
    NextWord(m, 58, 0x3e246a79, 0x27333ba3, 0xa9993667, 0xef57b9cd, 0x9fe3095e);
    NextWord(m, 59, 0x27333ba3, 0x0c4763f2, 0x84badedd, 0xebe6b238, 0x78bc8d4b);
    NextWord(m, 60, 0x0c4763f2, 0x840abf27, 0xc21462bc, 0x9fe3095e, 0xa43fcf15);
    NextWord(m, 61, 0x840abf27, 0x7a290d5d, 0x1487472c, 0x78bc8d4b, 0x668b2ff8);
    NextWord(m, 62, 0x7a290d5d, 0x065c43da, 0xb20f7a99, 0xa43fcf15, 0xeeaba2cc);
    NextWord(m, 63, 0x065c43da, 0xfb3e89cb, 0xef57b9cd, 0x668b2ff8, 0x12b1edeb);
  }

  // ----- the rounds -----------------------------------------------------------------------

  lemma Start(m: Block)
    ensures StateIs(m, 0, 0x6a09e667, 0xbb67ae85, 0x3c6ef372, 0xa54ff53a, 0x510e527f, 0x9b05688c, 0x1f83d9ab,
                    0x5be0cd19)
  {
    hide Hex;
    NoRounds(Initial(), m);
  }

  lemma Rounds0(m: Block)
    requires Opening(m)
    ensures StateIs(m, 8, 0x85a07b5f, 0xe5030380, 0x2b4209f5, 0x04409a6a, 0x0c657a79, 0x9b27a401, 0x714260ad,
                    0x43ada245)
  {
    hide StateIs, WordIs, Opening;
    Start(m);
    Words0(m);
    NextState(m, 0, 0x6a09e667, 0xbb67ae85, 0x3c6ef372, 0xa54ff53a, 0x510e527f, 0x9b05688c, 0x1f83d9ab, 0x5be0cd19,
              0x428a2f98, 0x61626380, 0x5d6aebcd, 0xfa2a4622);
    NextState(m, 1, 0x5d6aebcd, 0x6a09e667, 0xbb67ae85, 0x3c6ef372, 0xfa2a4622, 0x510e527f, 0x9b05688c, 0x1f83d9ab,
              0x71374491, 0, 0x5a6ad9ad, 0x78ce7989);
    NextState(m, 2, 0x5a6ad9ad, 0x5d6aebcd, 0x6a09e667, 0xbb67ae85, 0x78ce7989, 0xfa2a4622, 0x510e527f, 0x9b05688c,
              0xb5c0fbcf, 0, 0xc8c347a7, 0xf92939eb);
    NextState(m, 3, 0xc8c347a7, 0x5a6ad9ad, 0x5d6aebcd, 0x6a09e667, 0xf92939eb, 0x78ce7989, 0xfa2a4622, 0x510e527f,
              0xe9b5dba5, 0, 0xd550f666, 0x24e00850);
    NextState(m, 4, 0xd550f666, 0xc8c347a7, 0x5a6ad9ad, 0x5d6aebcd, 0x24e00850, 0xf92939eb, 0x78ce7989, 0xfa2a4622,
              0x3956c25b, 0, 0x04409a6a, 0x43ada245);
    NextState(m, 5, 0x04409a6a, 0xd550f666, 0xc8c347a7, 0x5a6ad9ad, 0x43ada245, 0x24e00850, 0xf92939eb, 0x78ce7989,
              0x59f111f1, 0, 0x2b4209f5, 0x714260ad);
    NextState(m, 6, 0x2b4209f5, 0x04409a6a, 0xd550f666, 0xc8c347a7, 0x714260ad, 0x43ada245, 0x24e00850, 0xf92939eb,
              0x923f82a4, 0, 0xe5030380, 0x9b27a401);
    NextState(m, 7, 0xe5030380, 0x2b4209f5, 0x04409a6a, 0xd550f666, 0x9b27a401, 0x714260ad, 0x43ada245, 0x24e00850,
              0xab1c5ed5, 0, 0x85a07b5f, 0x0c657a79);
  }

  lemma Rounds1(m: Block)
    requires Opening(m)
    ensures StateIs(m, 16, 0xb0fa238e, 0xc0645fde, 0xd932eb16, 0x87912990, 0x07590dcd, 0x0b92f20c, 0x745a48de,
                    0x1e578218)
  {
    hide StateIs, WordIs, Opening;
    Rounds0(m);
    Words1(m);
    NextState(m, 8, 0x85a07b5f, 0xe5030380, 0x2b4209f5, 0x04409a6a, 0x0c657a79, 0x9b27a401, 0x714260ad, 0x43ada245,
              0xd807aa98, 0, 0x8e04ecb9, 0x32ca2d8c);
    NextState(m, 9, 0x8e04ecb9, 0x85a07b5f, 0xe5030380, 0x2b4209f5, 0x32ca2d8c, 0x0c657a79, 0x9b27a401, 0x714260ad,
              0x12835b01, 0, 0x8c87346b, 0x1cc92596);
    NextState(m, 10, 0x8c87346b, 0x8e04ecb9, 0x85a07b5f, 0xe5030380, 0x1cc92596, 0x32ca2d8c, 0x0c657a79, 0x9b27a401,
              0x243185be, 0, 0x4798a3f4, 0x436b23e8);
    NextState(m, 11, 0x4798a3f4, 0x8c87346b, 0x8e04ecb9, 0x85a07b5f, 0x436b23e8, 0x1cc92596, 0x32ca2d8c, 0x0c657a79,
              0x550c7dc3, 0, 0xf71fc5a9, 0x816fd6e9);
    NextState(m, 12, 0xf71fc5a9, 0x4798a3f4, 0x8c87346b, 0x8e04ecb9, 0x816fd6e9, 0x436b23e8, 0x1cc92596, 0x32ca2d8c,
              0x72be5d74, 0, 0x87912990, 0x1e578218);
    NextState(m, 13, 0x87912990, 0xf71fc5a9, 0x4798a3f4, 0x8c87346b, 0x1e578218, 0x816fd6e9, 0x436b23e8, 0x1cc92596,
              0x80deb1fe, 0, 0xd932eb16, 0x745a48de);
    NextState(m, 14, 0xd932eb16, 0x87912990, 0xf71fc5a9, 0x4798a3f4, 0x745a48de, 0x1e578218, 0x816fd6e9, 0x436b23e8,
              0x9bdc06a7, 0, 0xc0645fde, 0x0b92f20c);
    NextState(m, 15, 0xc0645fde, 0xd932eb16, 0x87912990, 0xf71fc5a9, 0x0b92f20c, 0x745a48de, 0x1e578218, 0x816fd6e9,
              0xc19bf174, 0x00000018, 0xb0fa238e, 0x07590dcd);
  }

  lemma Rounds2(m: Block)
    requires Opening(m)
    ensures StateIs(m, 24, 0xc5d53d8d, 0xa7a3623f, 0xc2606d6d, 0x9dc68b63, 0xaa47c347, 0x49f5114a, 0xe1257970,
                    0x8ada8930)
  {
    hide StateIs, WordIs, Opening;
    Rounds1(m);
    Words2(m);
    NextState(m, 16, 0xb0fa238e, 0xc0645fde, 0xd932eb16, 0x87912990, 0x07590dcd, 0x0b92f20c, 0x745a48de, 0x1e578218,
              0xe49b69c1, 0x61626380, 0x21da9a9b, 0x8034229c);
    NextState(m, 17, 0x21da9a9b, 0xb0fa238e, 0xc0645fde, 0xd932eb16, 0x8034229c, 0x07590dcd, 0x0b92f20c, 0x745a48de,
              0xefbe4786, 0x000f0000, 0xc2fbd9d1, 0x846ee454);
    NextState(m, 18, 0xc2fbd9d1, 0x21da9a9b, 0xb0fa238e, 0xc0645fde, 0x846ee454, 0x8034229c, 0x07590dcd, 0x0b92f20c,
              0x0fc19dc6, 0x7da86405, 0xfe777bbf, 0xcc899961);
    NextState(m, 19, 0xfe777bbf, 0xc2fbd9d1, 0x21da9a9b, 0xb0fa238e, 0xcc899961, 0x846ee454, 0x8034229c, 0x07590dcd,
              0x240ca1cc, 0x600003c6, 0xe1f20c33, 0xb0638179);
    NextState(m, 20, 0xe1f20c33, 0xfe777bbf, 0xc2fbd9d1, 0x21da9a9b, 0xb0638179, 0xcc899961, 0x846ee454, 0x8034229c,
              0x2de92c6f, 0x3e9d7b78, 0x9dc68b63, 0x8ada8930);
    NextState(m, 21, 0x9dc68b63, 0xe1f20c33, 0xfe777bbf, 0xc2fbd9d1, 0x8ada8930, 0xb0638179, 0xcc899961, 0x846ee454,
              0x4a7484aa, 0x0183fc00, 0xc2606d6d, 0xe1257970);
    NextState(m, 22, 0xc2606d6d, 0x9dc68b63, 0xe1f20c33, 0xfe777bbf, 0xe1257970, 0x8ada8930, 0xb0638179, 0xcc899961,
              0x5cb0a9dc, 0x12dcbfdb, 0xa7a3623f, 0x49f5114a);
    NextState(m, 23, 0xa7a3623f, 0xc2606d6d, 0x9dc68b63, 0xe1f20c33, 0x49f5114a, 0xe1257970, 0x8ada8930, 0xb0638179,
              0x76f988da, 0xe2e2c38e, 0xc5d53d8d, 0xaa47c347);
  }

  lemma Rounds3(m: Block)
    requires Opening(m)
    ensures StateIs(m, 32, 0x73b33bf5, 0xea992a22, 0xa0060b30, 0x363482c9, 0xba591112, 0x0109ab3a, 0xade79437,
                    0x6112a3b7)
  {
    hide StateIs, WordIs, Opening;
    Rounds2(m);
    Words3(m);
    NextState(m, 24, 0xc5d53d8d, 0xa7a3623f, 0xc2606d6d, 0x9dc68b63, 0xaa47c347, 0x49f5114a, 0xe1257970, 0x8ada8930,
              0x983e5152, 0xc8215c1a, 0x1c2c2838, 0x2823ef91);
    NextState(m, 25, 0x1c2c2838, 0xc5d53d8d, 0xa7a3623f, 0xc2606d6d, 0x2823ef91, 0xaa47c347, 0x49f5114a, 0xe1257970,
              0xa831c66d, 0xb73679a2, 0xcde8037d, 0x14383d8e);
    NextState(m, 26, 0xcde8037d, 0x1c2c2838, 0xc5d53d8d, 0xa7a3623f, 0x14383d8e, 0x2823ef91, 0xaa47c347, 0x49f5114a,
              0xb00327c8, 0xe5bc3909, 0xb62ec4bc, 0xc74c6516);
    NextState(m, 27, 0xb62ec4bc, 0xcde8037d, 0x1c2c2838, 0xc5d53d8d, 0xc74c6516, 0x14383d8e, 0x2823ef91, 0xaa47c347,
              0xbf597fc7, 0x32663c5b, 0x77d37528, 0xedffbff8);
    NextState(m, 28, 0x77d37528, 0xb62ec4bc, 0xcde8037d, 0x1c2c2838, 0xedffbff8, 0xc74c6516, 0x14383d8e, 0x2823ef91,
              0xc6e00bf3, 0x9d209d67, 0x363482c9, 0x6112a3b7);
    NextState(m, 29, 0x363482c9, 0x77d37528, 0xb62ec4bc, 0xcde8037d, 0x6112a3b7, 0xedffbff8, 0xc74c6516, 0x14383d8e,
              0xd5a79147, 0xec8726cb, 0xa0060b30, 0xade79437);
    NextState(m, 30, 0xa0060b30, 0x363482c9, 0x77d37528, 0xb62ec4bc, 0xade79437, 0x6112a3b7, 0xedffbff8, 0xc74c6516,
              0x06ca6351, 0x702138a4, 0xea992a22, 0x0109ab3a);
    NextState(m, 31, 0xea992a22, 0xa0060b30, 0x363482c9, 0x77d37528, 0x0109ab3a, 0xade79437, 0x6112a3b7, 0xedffbff8,
              0x14292967, 0xd3b7973b, 0x73b33bf5, 0xba591112);
  }

  lemma Rounds4(m: Block)
    requires Opening(m)
    ensures StateIs(m, 40, 0x79ea687a, 0x6dc57a8a, 0x34df1604, 0x41a65cb1, 0x1efbc0a0, 0xf0781bc8, 0xa507a53d,
                    0x0772a26b)
  {
    hide StateIs, WordIs, Opening;
    Rounds3(m);
    Words4(m);
    NextState(m, 32, 0x73b33bf5, 0xea992a22, 0xa0060b30, 0x363482c9, 0xba591112, 0x0109ab3a, 0xade79437, 0x6112a3b7,
              0x27b70a85, 0x93f5997f, 0x98e12507, 0x9cd9f5f6);
    NextState(m, 33, 0x98e12507, 0x73b33bf5, 0xea992a22, 0xa0060b30, 0x9cd9f5f6, 0xba591112, 0x0109ab3a, 0xade79437,
              0x2e1b2138, 0x3b68ba73, 0xfe604df5, 0x59249dd3);
    NextState(m, 34, 0xfe604df5, 0x98e12507, 0x73b33bf5, 0xea992a22, 0x59249dd3, 0x9cd9f5f6, 0xba591112, 0x0109ab3a,
              0x4d2c6dfc, 0xaff4ffc1, 0xa9a7738c, 0x085f3833);
    NextState(m, 35, 0xa9a7738c, 0xfe604df5, 0x98e12507, 0x73b33bf5, 0x085f3833, 0x59249dd3, 0x9cd9f5f6, 0xba591112,
              0x53380d13, 0xf10a5c62, 0x65a0cfe4, 0xf4b002d6);
    NextState(m, 36, 0x65a0cfe4, 0xa9a7738c, 0xfe604df5, 0x98e12507, 0xf4b002d6, 0x085f3833, 0x59249dd3, 0x9cd9f5f6,
              0x650a7354, 0x0a8b3996, 0x41a65cb1, 0x0772a26b);
    NextState(m, 37, 0x41a65cb1, 0x65a0cfe4, 0xa9a7738c, 0xfe604df5, 0x0772a26b, 0xf4b002d6, 0x085f3833, 0x59249dd3,
              0x766a0abb, 0x72af830a, 0x34df1604, 0xa507a53d);
    NextState(m, 38, 0x34df1604, 0x41a65cb1, 0x65a0cfe4, 0xa9a7738c, 0xa507a53d, 0x0772a26b, 0xf4b002d6, 0x085f3833,
              0x81c2c92e, 0x9409e33e, 0x6dc57a8a, 0xf0781bc8);
    NextState(m, 39, 0x6dc57a8a, 0x34df1604, 0x41a65cb1, 0x65a0cfe4, 0xf0781bc8, 0xa507a53d, 0x0772a26b, 0xf4b002d6,
              0x92722c85, 0x24641522, 0x79ea687a, 0x1efbc0a0);
  }

  lemma Rounds5(m: Block)
    requires Opening(m)
    ensures StateIs(m, 48, 0x4172328d, 0xa14c14b0, 0x72ab4b91, 0x26628815, 0xfecf0bc6, 0xd57b94a9, 0xb7755da1,
                    0xa80f11f0)
  {
    hide StateIs, WordIs, Opening;
    Rounds4(m);
    Words5(m);
    NextState(m, 40, 0x79ea687a, 0x6dc57a8a, 0x34df1604, 0x41a65cb1, 0x1efbc0a0, 0xf0781bc8, 0xa507a53d, 0x0772a26b,
              0xa2bfe8a1, 0x9f47bf94, 0xd6670766, 0x26352d63);
    NextState(m, 41, 0xd6670766, 0x79ea687a, 0x6dc57a8a, 0x34df1604, 0x26352d63, 0x1efbc0a0, 0xf0781bc8, 0xa507a53d,
              0xa81a664b, 0xf0a64f5a, 0xdf46652f, 0x838b2711);
    NextState(m, 42, 0xdf46652f, 0xd6670766, 0x79ea687a, 0x6dc57a8a, 0x838b2711, 0x26352d63, 0x1efbc0a0, 0xf0781bc8,
              0xc24b8b70, 0x3e246a79, 0x17aa0dfe, 0xdecd4715);
    NextState(m, 43, 0x17aa0dfe, 0xdf46652f, 0xd6670766, 0x79ea687a, 0xdecd4715, 0x838b2711, 0x26352d63, 0x1efbc0a0,
              0xc76c51a3, 0x27333ba3, 0x9d4baf93, 0xfda24c2e);
    NextState(m, 44, 0x9d4baf93, 0x17aa0dfe, 0xdf46652f, 0xd6670766, 0xfda24c2e, 0xdecd4715, 0x838b2711, 0x26352d63,
              0xd192e819, 0x0c4763f2, 0x26628815, 0xa80f11f0);
    NextState(m, 45, 0x26628815, 0x9d4baf93, 0x17aa0dfe, 0xdf46652f, 0xa80f11f0, 0xfda24c2e, 0xdecd4715, 0x838b2711,
              0xd6990624, 0x840abf27, 0x72ab4b91, 0xb7755da1);
    NextState(m, 46, 0x72ab4b91, 0x26628815, 0x9d4baf93, 0x17aa0dfe, 0xb7755da1, 0xa80f11f0, 0xfda24c2e, 0xdecd4715,
              0xf40e3585, 0x7a290d5d, 0xa14c14b0, 0xd57b94a9);
    NextState(m, 47, 0xa14c14b0, 0x72ab4b91, 0x26628815, 0x9d4baf93, 0xd57b94a9, 0xb7755da1, 0xa80f11f0, 0xfda24c2e,
              0x106aa070, 0x065c43da, 0x4172328d, 0xfecf0bc6);
  }

  lemma Rounds6(m: Block)
    requires Opening(m)
    ensures StateIs(m, 56, 0x38cc9913, 0x3ec45cdb, 0xf5702fdb, 0x101fd28f, 0x54cb266b, 0xe50e1b4f, 0x9f4787c3,
                    0x529e7d00)
  {
    hide StateIs, WordIs, Opening;
    Rounds5(m);
    Words6(m);
    NextState(m, 48, 0x4172328d, 0xa14c14b0, 0x72ab4b91, 0x26628815, 0xfecf0bc6, 0xd57b94a9, 0xb7755da1, 0xa80f11f0,
              0x19a4c116, 0xfb3e89cb, 0x05757ceb, 0xbd714038);
    NextState(m, 49, 0x05757ceb, 0x4172328d, 0xa14c14b0, 0x72ab4b91, 0xbd714038, 0xfecf0bc6, 0xd57b94a9, 0xb7755da1,
              0x1e376c08, 0xcc7617db, 0xf11bfaa8, 0x6e5c390c);
    NextState(m, 50, 0xf11bfaa8, 0x05757ceb, 0x4172328d, 0xa14c14b0, 0x6e5c390c, 0xbd714038, 0xfecf0bc6, 0xd57b94a9,
              0x2748774c, 0xb9e66c34, 0x7a0508a1, 0x52f1ccf7);
    NextState(m, 51, 0x7a0508a1, 0xf11bfaa8, 0x05757ceb, 0x4172328d, 0x52f1ccf7, 0x6e5c390c, 0xbd714038, 0xfecf0bc6,
              0x34b0bcb5, 0xa9993667, 0x886e7a22, 0x49231c1e);
    NextState(m, 52, 0x886e7a22, 0x7a0508a1, 0xf11bfaa8, 0x05757ceb, 0x49231c1e, 0x52f1ccf7, 0x6e5c390c, 0xbd714038,
              0x391c0cb3, 0x84badedd, 0x101fd28f, 0x529e7d00);
    NextState(m, 53, 0x101fd28f, 0x886e7a22, 0x7a0508a1, 0xf11bfaa8, 0x529e7d00, 0x49231c1e, 0x52f1ccf7, 0x6e5c390c,
              0x4ed8aa4a, 0xc21462bc, 0xf5702fdb, 0x9f4787c3);
    NextState(m, 54, 0xf5702fdb, 0x101fd28f, 0x886e7a22, 0x7a0508a1, 0x9f4787c3, 0x529e7d00, 0x49231c1e, 0x52f1ccf7,
              0x5b9cca4f, 0x1487472c, 0x3ec45cdb, 0xe50e1b4f);
    NextState(m, 55, 0x3ec45cdb, 0xf5702fdb, 0x101fd28f, 0x886e7a22, 0xe50e1b4f, 0x9f4787c3, 0x529e7d00, 0x49231c1e,
              0x682e6ff3, 0xb20f7a99, 0x38cc9913, 0x54cb266b);
  }

  lemma Rounds7(m: Block)
    requires Opening(m)
    ensures StateIs(m, 64, 0x506e3058, 0xd39a2165, 0x04d24d6c, 0xb85e2ce9, 0x5ef50f24, 0xfb121210, 0x948d25b6,
                    0x961f4894)
  {
    hide StateIs, WordIs, Opening;
    Rounds6(m);
    Words7(m);
    NextState(m, 56, 0x38cc9913, 0x3ec45cdb, 0xf5702fdb, 0x101fd28f, 0x54cb266b, 0xe50e1b4f, 0x9f4787c3, 0x529e7d00,
              0x748f82ee, 0xef57b9cd, 0xfcd1887b, 0x9b5e906c);
    NextState(m, 57, 0xfcd1887b, 0x38cc9913, 0x3ec45cdb, 0xf5702fdb, 0x9b5e906c, 0x54cb266b, 0xe50e1b4f, 0x9f4787c3,
              0x78a5636f, 0xebe6b238, 0xc062d46f, 0x7e44008e);
    NextState(m, 58, 0xc062d46f, 0xfcd1887b, 0x38cc9913, 0x3ec45cdb, 0x7e44008e, 0x9b5e906c, 0x54cb266b, 0xe50e1b4f,
              0x84c87814, 0x9fe3095e, 0xffb70472, 0x6d83bfc6);
    NextState(m, 59, 0xffb70472, 0xc062d46f, 0xfcd1887b, 0x38cc9913, 0x6d83bfc6, 0x7e44008e, 0x9b5e906c, 0x54cb266b,
              0x8cc70208, 0x78bc8d4b, 0xb6ae8fff, 0xb21bad3d);
    NextState(m, 60, 0xb6ae8fff, 0xffb70472, 0xc062d46f, 0xfcd1887b, 0xb21bad3d, 0x6d83bfc6, 0x7e44008e, 0x9b5e906c,
              0x90befffa, 0xa43fcf15, 0xb85e2ce9, 0x961f4894);
    NextState(m, 61, 0xb85e2ce9, 0xb6ae8fff, 0xffb70472, 0xc062d46f, 0x961f4894, 0xb21bad3d, 0x6d83bfc6, 0x7e44008e,
              0xa4506ceb, 0x668b2ff8, 0x04d24d6c, 0x948d25b6);
    NextState(m, 62, 0x04d24d6c, 0xb85e2ce9, 0xb6ae8fff, 0xffb70472, 0x948d25b6, 0x961f4894, 0xb21bad3d, 0x6d83bfc6,
              0xbef9a3f7, 0xeeaba2cc, 0xd39a2165, 0xfb121210);
    NextState(m, 63, 0xd39a2165, 0x04d24d6c, 0xb85e2ce9, 0xb6ae8fff, 0xfb121210, 0x948d25b6, 0x961f4894, 0xb21bad3d,
              0xc67178f2, 0x12b1edeb, 0x506e3058, 0x5ef50f24);
  }

  // ----- the digest -----------------------------------------------------------------------

  /** ba7816bf 8f01cfea 414140de 5dae2223 b00361a3 96177a9c b410ff61 f20015ad. */
  lemma DigestOfAbc()
    ensures Digest(ABC)
         == StoreBig(Hex(0xba7816bf)) + StoreBig(Hex(0x8f01cfea))
          + StoreBig(Hex(0x414140de)) + StoreBig(Hex(0x5dae2223))
          + StoreBig(Hex(0xb00361a3)) + StoreBig(Hex(0x96177a9c))
          + StoreBig(Hex(0xb410ff61)) + StoreBig(Hex(0xf20015ad))
  {
    hide Hex, Rounds, Abc, Add, StoreBig, Fold;
    OpeningOfAbc();
    Start(Abc());
    Rounds7(Abc());
    NoRounds(Initial(), Abc());
    SumHex(0x6a09e667, 0x506e3058, 0xba7816bf);
    SumHex(0xbb67ae85, 0xd39a2165, 0x8f01cfea);
    SumHex(0x3c6ef372, 0x04d24d6c, 0x414140de);
    SumHex(0xa54ff53a, 0xb85e2ce9, 0x5dae2223);
    SumHex(0x510e527f, 0x5ef50f24, 0xb00361a3);
    SumHex(0x9b05688c, 0xfb121210, 0x96177a9c);
    SumHex(0x1f83d9ab, 0x948d25b6, 0xb410ff61);
    SumHex(0x5be0cd19, 0x961f4894, 0xf20015ad);
    AbcWhole();
    OneBlock(Compress, Initial(), Abc());
  }

  lemma AbcWhole()
    ensures ABC + Padding(|ABC|) + LengthField(|ABC|) == Abc()
  {
    hide Padding, LengthField, Code;
  }
}
