/** The digest of "abc" in appendix A.5 of RFC 1321. */
module Md5Answers {
  import opened Bits
  import opened Words
  import opened BlockHash
  import opened BitVectors
  import opened HashAnswers
  import opened Md5

  // ----- the functions of the standard on constants ---------------------------------------

  function Chosen(i: nat, x: bv32, y: bv32, z: bv32): (r: bv32) {
    if i < 16 then BOr(BAnd(x, y), BAnd(BXor(x, 0xffffffff), z))
    else if i < 32 then BOr(BAnd(x, z), BAnd(y, BXor(z, 0xffffffff)))
    else if i < 48 then BXor(BXor(x, y), z)
    else BXor(y, BOr(x, BXor(z, 0xffffffff)))
  }

  lemma ChosenHex(i: nat, x: bv32, y: bv32, z: bv32)
    ensures Auxiliary(i, Hex(x), Hex(y), Hex(z)) == Hex(Chosen(i, x, y, z))
  {
    hide Hex, Xor, And, Or, Not, BXor, BAnd, BOr;
    NotHex(x);
    NotHex(z);
    AndHex(x, y);
    AndHex(BXor(x, 0xffffffff), z);
    OrHex(BAnd(x, y), BAnd(BXor(x, 0xffffffff), z));
    AndHex(x, z);
    AndHex(y, BXor(z, 0xffffffff));
    OrHex(BAnd(x, z), BAnd(y, BXor(z, 0xffffffff)));
    XorHex(x, y);
    XorHex(BXor(x, y), z);
    OrHex(x, BXor(z, 0xffffffff));
    XorHex(y, BOr(x, BXor(z, 0xffffffff)));
  }

  /** The rotations that there are. */
  function Rotated(x: bv32, s: nat): (r: bv32) {
    match s
    case 4 => (x >> 28) | (x << 4)
    case 5 => (x >> 27) | (x << 5)
    case 6 => (x >> 26) | (x << 6)
    case 7 => (x >> 25) | (x << 7)
    case 9 => (x >> 23) | (x << 9)
    case 10 => (x >> 22) | (x << 10)
    case 11 => (x >> 21) | (x << 11)
    case 12 => (x >> 20) | (x << 12)
    case 14 => (x >> 18) | (x << 14)
    case 15 => (x >> 17) | (x << 15)
    case 16 => (x >> 16) | (x << 16)
    case 17 => (x >> 15) | (x << 17)
    case 20 => (x >> 12) | (x << 20)
    case 21 => (x >> 11) | (x << 21)
    case 22 => (x >> 10) | (x << 22)
    case 23 => (x >> 9) | (x << 23)
    case _ => x
  }

  predicate IsShift(s: nat) {
    || s == 4 || s == 5 || s == 6 || s == 7 || s == 9 || s == 10 || s == 11 || s == 12
    || s == 14 || s == 15 || s == 16 || s == 17 || s == 20 || s == 21 || s == 22 || s == 23
  }

  lemma RotatedIs(x: bv32, s: nat)
    requires IsShift(s)
    ensures Turns(x, 32 - s) == Rotated(x, s)
  {
    hide Turns;
    match s
    case 4 => Turn28(x);
    case 5 => Turn27(x);
    case 6 => Turn26(x);
    case 7 => Turn25(x);
    case 9 => Turn23(x);
    case 10 => Turn22(x);
    case 11 => Turn21(x);
    case 12 => Turn20(x);
    case 14 => Turn18(x);
    case 15 => Turn17(x);
    case 16 => Turn16(x);
    case 17 => Turn15(x);
    case 20 => Turn12(x);
    case 21 => Turn11(x);
    case 22 => Turn10(x);
    case 23 => Turn9(x);
  }

  lemma RotatedHex(x: bv32, s: nat)
    requires IsShift(s)
    ensures RotL(Hex(x), s) == Hex(Rotated(x, s))
  {
    hide Hex, RotR, Turns, Rotated;
    RotatedIs(x, s);
    TurnsHex(x, 32 - s);
  }

  // ----- an operation ---------------------------------------------------------------------

  /** Word `k` of a block, and the state before operation `i`. */
  predicate WordIs(m: Block, k: nat, w: bv32) { k < 16 && LoadLittle(m[4 * k..4 * k + 4]) == Hex(w) }

  predicate StateIs(m: Block, i: nat, a: bv32, b: bv32, c: bv32, d: bv32) {
    i <= 64 && Operations(Initial(), m, i) == Regs(Hex(a), Hex(b), Hex(c), Hex(d))
  }

  /** One operation: the sum, and after its rotation the new value of `b`. */
  lemma NextState(m: Block, i: nat, a: bv32, b: bv32, c: bv32, d: bv32, k: nat, w: bv32, t: bv32, s: nat,
                  u: bv32, x: bv32)
    requires StateIs(m, i, a, b, c, d) && i < 64 && INDEX[i] == k && WordIs(m, k, w) && T[i] == t && ShiftBy(i) == s
    requires IsShift(s) && BAdd(BAdd(BAdd(a, Chosen(i, b, c, d)), w), t) == u && Rotated(u, s) == x - b
    ensures StateIs(m, i + 1, d, x, b, c)
  {
    hide Hex, Add, Auxiliary, BAdd, Chosen, Rotated, RotL, Initial, T, ShiftBy, LoadLittle, IsShift, Operations,
         Operation;
    var f := Chosen(i, b, c, d);
    NextOperation(m, i, Regs(Hex(a), Hex(b), Hex(c), Hex(d)));
    OperationIs(m, i, Hex(a), Hex(b), Hex(c), Hex(d), Hex(w), Hex(t), s);
    ChosenHex(i, b, c, d);
    AddHex(a, f);
    AddHex(BAdd(a, f), w);
    AddHex(BAdd(BAdd(a, f), w), t);
    RotatedHex(u, s);
    AddHex(b, x - b);
    BackAgain(b, x);
  }

  lemma NextOperation(m: Block, i: nat, r: Regs)
    requires i < 64 && Operations(Initial(), m, i) == r
    ensures Operations(Initial(), m, i + 1) == Operation(r, MessageWord(m, i), i)
  {
    hide Operation, MessageWord;
  }

  lemma OperationIs(m: Block, i: nat, a: Word, b: Word, c: Word, d: Word, w: Word, t: Word, s: nat)
    requires i < 64 && MessageWord(m, i) == w && Constant(i) == t && ShiftBy(i) == s
    ensures Operation(Regs(a, b, c, d), MessageWord(m, i), i)
         == Regs(d, Add(b, RotL(Add(Add(Add(a, Auxiliary(i, b, c, d)), w), t), s)), b, c)
  {
    hide Add, Auxiliary, MessageWord, Constant, ShiftBy, RotL;
  }

  // ----- the block ------------------------------------------------------------------------

  /** "abc" with its padding and its length. */
  function Abc(): (b: Block) {
    hide Padding, LengthField, Code;
    PaddingOfThree();
    ABC + Padding(3) + LengthField(3)
  }

  lemma AbcBytes()
    ensures Abc()[..4] == [Code(0x61), Code(0x62), Code(0x63), Code(0x80)]
    ensures (forall i :: 4 <= i < 64 && i != 56 ==> Abc()[i] == Code(0)) && Abc()[56] == Code(0x18)
  {
    hide Code, Padding, LengthField;
    PaddingOfThree();
    LengthBytes();
    ThreeParts(ABC, Padding(3), LengthField(3));
  }

  lemma LengthBytes()
    ensures LengthField(3) == [Code(0x18), Code(0), Code(0), Code(0), Code(0), Code(0), Code(0), Code(0)]
  {
    hide FromNat, BitsFrom;
    LowEight(24, 64);
    HashAnswers.SameBits(24, 0x18, 8);
    HashAnswers.SameBits(0, 0, 56);
    NoBits(56);
    NoBits(8);
    var all, rest := FromNat(24, 64), BitsFrom(0, 56);
    assert all == FromNat(24, 8) + rest;
    Tail(all, rest);
    assert rest[0..8] == Code(0) && rest[8..16] == Code(0) && rest[16..24] == Code(0) && rest[24..32] == Code(0);
    assert rest[32..40] == Code(0) && rest[40..48] == Code(0) && rest[48..56] == Code(0);
  }

  lemma Tail(all: seq<bool>, rest: seq<bool>)
    requires |all| == 64 && all[8..] == rest
    ensures all[8..16] == rest[0..8] && all[16..24] == rest[8..16] && all[24..32] == rest[16..24]
    ensures all[32..40] == rest[24..32] && all[40..48] == rest[32..40] && all[48..56] == rest[40..48]
    ensures all[56..] == rest[48..56]
  {}

  /** Its words: 61 62 63 80 low byte first, zeros, 24 bits in word 14, and zero. */
  predicate Opening(m: Block) {
    && WordIs(m, 0, 0x80636261) && (forall k :: 1 <= k < 14 ==> WordIs(m, k, 0))
    && WordIs(m, 14, 0x18) && WordIs(m, 15, 0)
  }

  lemma OpeningOfAbc()
    ensures Opening(Abc())
  {
    hide Code, Hex, Abc, LoadLittle;
    AbcBytes();
    SameLow(0x80636261, 0x61);
    SameLow(0x806362, 0x62);
    SameLow(0x8063, 0x63);
    LittleHex(Abc()[0..4], 0x80636261);
    forall k | 1 <= k < 16 && k != 14 ensures WordIs(Abc(), k, 0) { LittleHex(Abc()[4 * k..4 * k + 4], 0); }
    LittleHex(Abc()[56..60], 0x18);
  }

  // ----- the operations -------------------------------------------------------------------

  lemma Start(m: Block)
    ensures StateIs(m, 0, 0x67452301, 0xefcdab89, 0x98badcfe, 0x10325476)
  {
    hide Hex;
    NoOperations(Initial(), m);
  }

  lemma Operations0(m: Block)
    requires Opening(m)
    ensures StateIs(m, 1, 0x10325476, 0xd6d117b4, 0xefcdab89, 0x98badcfe)
  {
    hide StateIs, WordIs;
    Start(m);
    NextState(m, 0, 0x67452301, 0xefcdab89, 0x98badcfe, 0x10325476, 0, 0x80636261, 0xd76aa478, 7, 0x57ce06d8,
              0xd6d117b4);
  }

  lemma Operations1(m: Block)
    requires Opening(m)
    ensures StateIs(m, 8, 0xc73741ef, 0x928d99f6, 0x207dc67b, 0x8bac3051)
  {
    hide StateIs, WordIs;
    Operations0(m);
    NextState(m, 1, 0x10325476, 0xd6d117b4, 0xefcdab89, 0x98badcfe, 1, 0, 0xe8c7b756, 12, 0xc7e5d796, 0x344a8432);
    NextState(m, 2, 0x98badcfe, 0x344a8432, 0xd6d117b4, 0xefcdab89, 2, 0, 0x242070db, 17, 0x9ca07d92, 0x2f6fbd72);
    NextState(m, 3, 0xefcdab89, 0x2f6fbd72, 0x344a8432, 0xd6d117b4, 3, 0, 0xc1bdceee, 22, 0xa666012d, 0x7ad956f2);
    NextState(m, 4, 0xd6d117b4, 0x7ad956f2, 0x2f6fbd72, 0x344a8432, 4, 0, 0xf57c0faf, 7, 0xfa98bbd5, 0xc73741ef);
    NextState(m, 5, 0x344a8432, 0xc73741ef, 0x7ad956f2, 0x2f6fbd72, 5, 0, 0x4787c62a, 12, 0xe62c474e, 0x8bac3051);
    NextState(m, 6, 0x2f6fbd72, 0x8bac3051, 0xc73741ef, 0x7ad956f2, 6, 0, 0xa8304613, 17, 0xcb154a68, 0x207dc67b);
    NextState(m, 7, 0x7ad956f2, 0x207dc67b, 0x8bac3051, 0xc73741ef, 7, 0, 0xfd469501, 22, 0x3f4dedc8, 0x928d99f6);
  }

  lemma Operations2(m: Block)
    requires Opening(m)
    ensures StateIs(m, 16, 0xdda9b9a6, 0x72aff2e0, 0xe396856b, 0xa1051895)
  {
    hide StateIs, WordIs;
    Operations1(m);
    NextState(m, 8, 0xc73741ef, 0x928d99f6, 0x207dc67b, 0x8bac3051, 8, 0, 0x698098d8, 7, 0x39e57b3a, 0x854b3712);
    NextState(m, 9, 0x8bac3051, 0x854b3712, 0x928d99f6, 0x207dc67b, 9, 0, 0x8b44f7af, 12, 0xb72ef97b, 0x74e2f284);
    NextState(m, 10, 0x207dc67b, 0x74e2f284, 0x854b3712, 0x928d99f6, 10, 0, 0xffff5bb1, 17, 0xa6cc5d9e, 0x3020401c);
    NextState(m, 11, 0x928d99f6, 0x3020401c, 0x74e2f284, 0x854b3712, 11, 0, 0x895cd7be, 22, 0xd155e8ba, 0x5ed49596);
    NextState(m, 12, 0x854b3712, 0x5ed49596, 0x3020401c, 0x74e2f284, 12, 0, 0x6b901122, 7, 0x20fdaa48, 0xdda9b9a6);
    NextState(m, 13, 0x74e2f284, 0xdda9b9a6, 0x5ed49596, 0x3020401c, 13, 0, 0xfd987193, 12, 0xeefc35b5, 0xa1051895);
    NextState(m, 14, 0x3020401c, 0xa1051895, 0xdda9b9a6, 0x5ed49596, 14, 0x00000018, 0xa679438e, 17, 0xb66b2148,
              0xe396856b);
    NextState(m, 15, 0x5ed49596, 0xe396856b, 0xa1051895, 0xdda9b9a6, 15, 0, 0x49b40821, 22, 0x65b5d63c, 0x72aff2e0);
  }

  lemma Operations3(m: Block)
    requires Opening(m)
    ensures StateIs(m, 24, 0x59a8ffda, 0x47092c07, 0xabfc7920, 0x6d002f1e)
  {
    hide StateIs, WordIs;
    Operations2(m);
    NextState(m, 16, 0xdda9b9a6, 0x72aff2e0, 0xe396856b, 0xa1051895, 1, 0, 0xf61e2562, 5, 0x365f74f2, 0x3e9e9126);
    NextState(m, 17, 0xa1051895, 0x3e9e9126, 0x72aff2e0, 0xe396856b, 6, 0, 0xc040b340, 9, 0x9405bf77, 0x4a1d804e);
    NextState(m, 18, 0xe396856b, 0x4a1d804e, 0x3e9e9126, 0x72aff2e0, 11, 0, 0x265e5a51, 14, 0x58126102, 0xe25e1652);
    NextState(m, 19, 0x72aff2e0, 0xe25e1652, 0x4a1d804e, 0x3e9e9126, 0, 0x80636261, 0xe9b6c7aa, 20, 0x3ee92d35,
              0xb5b204e4);
    NextState(m, 20, 0x3e9e9126, 0xb5b204e4, 0xe25e1652, 0x4a1d804e, 5, 0, 0xd62f105d, 5, 0xb51fb7d7, 0x59a8ffda);
    NextState(m, 21, 0x4a1d804e, 0x59a8ffda, 0xb5b204e4, 0xe25e1652, 10, 0, 0x02441453, 9, 0xa209ab97, 0x6d002f1e);
    NextState(m, 22, 0xe25e1652, 0x6d002f1e, 0x59a8ffda, 0xb5b204e4, 15, 0, 0xd8a1e681, 14, 0x2808fbf1, 0xabfc7920);
    NextState(m, 23, 0xb5b204e4, 0xabfc7920, 0x6d002f1e, 0x59a8ffda, 4, 0, 0xe7d3fbc8, 20, 0xcb2e79b0, 0x47092c07);
  }

  lemma Operations4(m: Block)
    requires Opening(m)
    ensures StateIs(m, 32, 0x790a77fb, 0x726342d3, 0xa62884aa, 0x9f47e4f8)
  {
    hide StateIs, WordIs;
    Operations3(m);
    NextState(m, 24, 0x59a8ffda, 0x47092c07, 0xabfc7920, 0x6d002f1e, 9, 0, 0x21e1cde6, 5, 0x438749e6, 0xb7f268cf);
    NextState(m, 25, 0x6d002f1e, 0xb7f268cf, 0x47092c07, 0xabfc7920, 14, 0x00000018, 0xc33707d6, 9, 0x1828a313,
              0x09388eff);
    NextState(m, 26, 0xabfc7920, 0x09388eff, 0xb7f268cf, 0x47092c07, 3, 0, 0xf4d50d87, 14, 0x52cbd376, 0xfe1623b1);
    NextState(m, 27, 0x47092c07, 0xfe1623b1, 0x09388eff, 0xb7f268cf, 8, 0, 0x455a14ed, 20, 0x4a7de7a5, 0x786acb8f);
    NextState(m, 28, 0xb7f268cf, 0x786acb8f, 0xfe1623b1, 0x09388eff, 13, 0, 0xa9e3e905, 5, 0x6004fd63, 0x790a77fb);
    NextState(m, 29, 0x09388eff, 0x790a77fb, 0x786acb8f, 0xfe1623b1, 2, 0, 0xfcefa3f8, 9, 0x7e931eb6, 0x9f47e4f8);
    NextState(m, 30, 0xfe1623b1, 0x9f47e4f8, 0x790a77fb, 0x786acb8f, 7, 0, 0x676f02d9, 14, 0x7ec81b82, 0xa62884aa);
    NextState(m, 31, 0x786acb8f, 0xa62884aa, 0x9f47e4f8, 0x790a77fb, 12, 0, 0x8d2a4c8a, 20, 0xabe29cc3, 0x726342d3);
  }

  lemma Operations5(m: Block)
    requires Opening(m)
    ensures StateIs(m, 40, 0x21b117b9, 0x5a2f5ea5, 0x3575227e, 0x6e7429d5)
  {
    hide StateIs, WordIs;
    Operations4(m);
    NextState(m, 32, 0x790a77fb, 0x726342d3, 0xa62884aa, 0x9f47e4f8, 5, 0, 0xfffa3942, 4, 0xc410d3be, 0xb3707ebf);
    NextState(m, 33, 0x9f47e4f8, 0xb3707ebf, 0x726342d3, 0xa62884aa, 8, 0, 0x8771f681, 11, 0x8df5943f, 0x60127b2e);
    NextState(m, 34, 0xa62884aa, 0x60127b2e, 0xb3707ebf, 0x726342d3, 11, 0, 0x6d9d6122, 16, 0xb4c72d0e, 0x8d212ff5);
    NextState(m, 35, 0x726342d3, 0x8d212ff5, 0x60127b2e, 0xb3707ebf, 14, 0x00000018, 0xfde5380c, 23, 0xce8ba55b,
              0x3b0875c7);
    NextState(m, 36, 0xb3707ebf, 0x3b0875c7, 0x8d212ff5, 0x60127b2e, 1, 0, 0xa4beea44, 4, 0x2e6a8a1f, 0x21b117b9);
    NextState(m, 37, 0x60127b2e, 0x21b117b9, 0x3b0875c7, 0x8d212ff5, 4, 0, 0x4bdecfa9, 11, 0x43899862, 0x6e7429d5);
    NextState(m, 38, 0x8d212ff5, 0x6e7429d5, 0x21b117b9, 0x3b0875c7, 7, 0, 0xf6bb4b60, 16, 0xf8a9c700, 0x3575227e);
    NextState(m, 39, 0x3b0875c7, 0x3575227e, 0x6e7429d5, 0x21b117b9, 10, 0, 0xbebfbc70, 23, 0x74784e49, 0x5a2f5ea5);
  }

  lemma Operations6(m: Block)
    requires Opening(m)
    ensures StateIs(m, 48, 0x7f2e507b, 0x7beb9700, 0x8fae6399, 0x99d9679d)
  {
    hide StateIs, WordIs;
    Operations5(m);
    NextState(m, 40, 0x21b117b9, 0x5a2f5ea5, 0x3575227e, 0x6e7429d5, 13, 0, 0x289b7ec6, 4, 0x4b7aeb8d, 0x11de1779);
    NextState(m, 41, 0x6e7429d5, 0x11de1779, 0x5a2f5ea5, 0x3575227e, 0, 0x80636261, 0xeaa127fa, 11, 0x57fd1fd2,
              0xfadcaa38);
    NextState(m, 42, 0x3575227e, 0xfadcaa38, 0x11de1779, 0x5a2f5ea5, 3, 0, 0xd4ef3085, 16, 0xbb9236e7, 0x31c465ca);
    NextState(m, 43, 0x5a2f5ea5, 0x31c465ca, 0xfadcaa38, 0x11de1779, 6, 0, 0x04881d05, 23, 0x397e5435, 0x4c6124f4);
    NextState(m, 44, 0x11de1779, 0x4c6124f4, 0x31c465ca, 0xfadcaa38, 9, 0, 0xd9d4d039, 4, 0x732cd2b8, 0x7f2e507b);
    NextState(m, 45, 0xfadcaa38, 0x7f2e507b, 0x4c6124f4, 0x31c465ca, 12, 0, 0xe6db99e5, 11, 0xe4435562, 0x99d9679d);
    NextState(m, 46, 0x31c465ca, 0x99d9679d, 0x7f2e507b, 0x4c6124f4, 15, 0, 0x1fa27cf8, 16, 0xfbfcf5d4, 0x8fae6399);
    NextState(m, 47, 0x4c6124f4, 0x8fae6399, 0x99d9679d, 0x7f2e507b, 2, 0, 0xc4ac5665, 23, 0x7a66cfd8, 0x7beb9700);
  }

  lemma Operations7(m: Block)
    requires Opening(m)
    ensures StateIs(m, 56, 0x06cc5e8a, 0x3bfa2c27, 0x7d632dd0, 0x5b0d97aa)
  {
    hide StateIs, WordIs;
    Operations6(m);
    NextState(m, 48, 0x7f2e507b, 0x7beb9700, 0x8fae6399, 0x99d9679d, 0, 0x80636261, 0xf4292244, 6, 0xe3fcd21b,
              0x7b201df8);
    NextState(m, 49, 0x99d9679d, 0x7b201df8, 0x7beb9700, 0x8fae6399, 7, 0, 0x432aff97, 10, 0xdd9e7232, 0xf4e8e96e);
    NextState(m, 50, 0x8fae6399, 0xf4e8e96e, 0x7b201df8, 0x7beb9700, 14, 0x00000018, 0xab9423a7, 15, 0xcb1f7b5f,
              0xb298cefd);
    NextState(m, 51, 0x7beb9700, 0xb298cefd, 0xf4e8e96e, 0x7b201df8, 5, 0, 0xfc93a039, 21, 0xbab63eca, 0x8bf025c4);
    NextState(m, 52, 0x7b201df8, 0x8bf025c4, 0xb298cefd, 0xf4e8e96e, 12, 0, 0x655b59c3, 6, 0x19eb70e3, 0x06cc5e8a);
    NextState(m, 53, 0xf4e8e96e, 0x06cc5e8a, 0x8bf025c4, 0xb298cefd, 3, 0, 0x8f0ccc92, 10, 0x4815104e, 0x5b0d97aa);
    NextState(m, 54, 0xb298cefd, 0x5b0d97aa, 0x06cc5e8a, 0x8bf025c4, 10, 0, 0xffeff47d, 15, 0x2c4c44ab, 0x7d632dd0);
    NextState(m, 55, 0x8bf025c4, 0x7d632dd0, 0x5b0d97aa, 0x06cc5e8a, 1, 0, 0x85845dd1, 21, 0xb7f2bdf4, 0x3bfa2c27);
  }

  lemma Operations8(m: Block)
    requires Opening(m)
    ensures StateIs(m, 64, 0x310ade8f, 0xc08226b3, 0xe484b9d8, 0x624d8cb2)
  {
    hide StateIs, WordIs;
    Operations7(m);
    NextState(m, 56, 0x06cc5e8a, 0x3bfa2c27, 0x7d632dd0, 0x5b0d97aa, 8, 0, 0x6fa87e4f, 6, 0x390e1e80, 0x7f81cc35);
    NextState(m, 57, 0x5b0d97aa, 0x7f81cc35, 0x3bfa2c27, 0x7d632dd0, 15, 0, 0xfe2ce6e0, 10, 0x1da270a2, 0x094454ab);
    NextState(m, 58, 0x7d632dd0, 0x094454ab, 0x7f81cc35, 0x3bfa2c27, 6, 0, 0xa3014314, 15, 0xd3288cb2, 0x4f9dbe3f);
    NextState(m, 59, 0x3bfa2c27, 0x4f9dbe3f, 0x094454ab, 0x7f81cc35, 13, 0, 0x4e0811a1, 21, 0x50be291c, 0x7327d604);
    NextState(m, 60, 0x7f81cc35, 0x7327d604, 0x4f9dbe3f, 0x094454ab, 4, 0, 0xf7537e82, 6, 0x2ef78c22, 0x310ade8f);
    NextState(m, 61, 0x094454ab, 0x310ade8f, 0x7327d604, 0x4f9dbe3f, 11, 0, 0xbd3af235, 10, 0x88cc50ab, 0x624d8cb2);
    NextState(m, 62, 0x4f9dbe3f, 0x624d8cb2, 0x310ade8f, 0x7327d604, 2, 0, 0x2ad7d2bb, 15, 0x5a4d046e, 0xe484b9d8);
    NextState(m, 63, 0x7327d604, 0xe484b9d8, 0x624d8cb2, 0x310ade8f, 9, 0, 0xeb86d391, 21, 0xeb66dedf, 0xc08226b3);
  }

  // ----- the digest -----------------------------------------------------------------------

  /** 90015098 3cd24fb0 d6963f7d 28e17f72, each word low byte first. */
  lemma DigestOfAbc()
    ensures Digest(ABC)
         == StoreLittle(Hex(0x98500190)) + StoreLittle(Hex(0xb04fd23c))
          + StoreLittle(Hex(0x7d3f96d6)) + StoreLittle(Hex(0x727fe128))
  {
    hide Hex, Operations, Abc, Add, StoreLittle, Fold, Opening;
    OpeningOfAbc();
    Start(Abc());
    Operations8(Abc());
    NoOperations(Initial(), Abc());
    SumHex(0x310ade8f, 0x67452301, 0x98500190);
    SumHex(0xc08226b3, 0xefcdab89, 0xb04fd23c);
    SumHex(0xe484b9d8, 0x98badcfe, 0x7d3f96d6);
    SumHex(0x624d8cb2, 0x10325476, 0x727fe128);
    AbcWhole();
    OneBlock(Compress, Initial(), Abc());
  }

  lemma AbcWhole()
    ensures Padded(ABC) == Abc()
  {
    hide Padding, LengthField, Code;
  }
}
