/** What the known answers of SHA-256 and MD5 share: rotations, octets and one-block messages. */
module HashAnswers {
  import opened Arithmetic
  import opened Bits
  import opened Words
  import opened BitVectors
  import opened BlockHash

  // ----- rotations ------------------------------------------------------------------------

  lemma {:induction false} TurnsAdd(x: bv32, a: nat, b: nat)
    ensures Turns(Turns(x, a), b) == Turns(x, a + b)
    decreases a
  {
    hide Turn;
    if a > 0 { TurnsAdd(Turn(x), a - 1, b); }
  }

  lemma Turn1(x: bv32)
    ensures Turns(x, 1) == (x >> 1) | (x << 31)
  {}

  lemma Turn2(x: bv32)
    ensures Turns(x, 2) == (x >> 2) | (x << 30)
  {}

  lemma Turn4(x: bv32)
    ensures Turns(x, 4) == (x >> 4) | (x << 28)
  {}

  lemma Turn8(x: bv32)
    ensures Turns(x, 8) == (x >> 8) | (x << 24)
  {}

  lemma Turn6(x: bv32)
    ensures Turns(x, 6) == (x >> 6) | (x << 26)
  {
    hide Turns;
    Turn4(x);
    Turn2(Turns(x, 4));
    TurnsAdd(x, 4, 2);
  }

  lemma Turn7(x: bv32)
    ensures Turns(x, 7) == (x >> 7) | (x << 25)
  {
    hide Turns;
    Turn6(x);
    Turn1(Turns(x, 6));
    TurnsAdd(x, 6, 1);
  }

  lemma Turn9(x: bv32)
    ensures Turns(x, 9) == (x >> 9) | (x << 23)
  {
    hide Turns;
    Turn8(x);
    Turn1(Turns(x, 8));
    TurnsAdd(x, 8, 1);
  }

  lemma Turn10(x: bv32)
    ensures Turns(x, 10) == (x >> 10) | (x << 22)
  {
    hide Turns;
    Turn9(x);
    Turn1(Turns(x, 9));
    TurnsAdd(x, 9, 1);
  }

  lemma Turn11(x: bv32)
    ensures Turns(x, 11) == (x >> 11) | (x << 21)
  {
    hide Turns;
    Turn10(x);
    Turn1(Turns(x, 10));
    TurnsAdd(x, 10, 1);
  }

  lemma Turn12(x: bv32)
    ensures Turns(x, 12) == (x >> 12) | (x << 20)
  {
    hide Turns;
    Turn11(x);
    Turn1(Turns(x, 11));
    TurnsAdd(x, 11, 1);
  }

  lemma Turn13(x: bv32)
    ensures Turns(x, 13) == (x >> 13) | (x << 19)
  {
    hide Turns;
    Turn12(x);
    Turn1(Turns(x, 12));
    TurnsAdd(x, 12, 1);
  }

  lemma Turn15(x: bv32)
    ensures Turns(x, 15) == (x >> 15) | (x << 17)
  {
    hide Turns;
    Turn13(x);
    Turn2(Turns(x, 13));
    TurnsAdd(x, 13, 2);
  }

  lemma Turn16(x: bv32)
    ensures Turns(x, 16) == (x >> 16) | (x << 16)
  {
    hide Turns;
    Turn15(x);
    Turn1(Turns(x, 15));
    TurnsAdd(x, 15, 1);
  }

  lemma Turn17(x: bv32)
    ensures Turns(x, 17) == (x >> 17) | (x << 15)
  {
    hide Turns;
    Turn16(x);
    Turn1(Turns(x, 16));
    TurnsAdd(x, 16, 1);
  }

  lemma Turn18(x: bv32)
    ensures Turns(x, 18) == (x >> 18) | (x << 14)
  {
    hide Turns;
    Turn17(x);
    Turn1(Turns(x, 17));
    TurnsAdd(x, 17, 1);
  }

  lemma Turn19(x: bv32)
    ensures Turns(x, 19) == (x >> 19) | (x << 13)
  {
    hide Turns;
    Turn18(x);
    Turn1(Turns(x, 18));
    TurnsAdd(x, 18, 1);
  }

  lemma Turn20(x: bv32)
    ensures Turns(x, 20) == (x >> 20) | (x << 12)
  {
    hide Turns;
    Turn19(x);
    Turn1(Turns(x, 19));
    TurnsAdd(x, 19, 1);
  }

  lemma Turn21(x: bv32)
    ensures Turns(x, 21) == (x >> 21) | (x << 11)
  {
    hide Turns;
    Turn20(x);
    Turn1(Turns(x, 20));
    TurnsAdd(x, 20, 1);
  }

  lemma Turn22(x: bv32)
    ensures Turns(x, 22) == (x >> 22) | (x << 10)
  {
    hide Turns;
    Turn21(x);
    Turn1(Turns(x, 21));
    TurnsAdd(x, 21, 1);
  }

  lemma Turn23(x: bv32)
    ensures Turns(x, 23) == (x >> 23) | (x << 9)
  {
    hide Turns;
    Turn22(x);
    Turn1(Turns(x, 22));
    TurnsAdd(x, 22, 1);
  }

  lemma Turn25(x: bv32)
    ensures Turns(x, 25) == (x >> 25) | (x << 7)
  {
    hide Turns;
    Turn23(x);
    Turn2(Turns(x, 23));
    TurnsAdd(x, 23, 2);
  }

  lemma Turn26(x: bv32)
    ensures Turns(x, 26) == (x >> 26) | (x << 6)
  {
    hide Turns;
    Turn25(x);
    Turn1(Turns(x, 25));
    TurnsAdd(x, 25, 1);
  }

  lemma Turn27(x: bv32)
    ensures Turns(x, 27) == (x >> 27) | (x << 5)
  {
    hide Turns;
    Turn26(x);
    Turn1(Turns(x, 26));
    TurnsAdd(x, 26, 1);
  }

  lemma Turn28(x: bv32)
    ensures Turns(x, 28) == (x >> 28) | (x << 4)
  {
    hide Turns;
    Turn27(x);
    Turn1(Turns(x, 27));
    TurnsAdd(x, 27, 1);
  }

  lemma BackAgain(d: bv32, y: bv32)
    ensures BAdd(d, y - d) == y
  {}

  lemma SumHex(a: bv32, b: bv32, x: bv32)
    requires BAdd(a, b) == x
    ensures Add(Hex(a), Hex(b)) == Hex(x)
  {
    hide Hex, Add, BAdd;
    AddHex(a, b);
  }

  lemma {:induction false} NoBits(n: nat)
    ensures forall i :: 0 <= i < n ==> !BitsFrom(0, n)[i]
  {
    if n > 0 { NoBits(n - 1); }
  }

  // ----- octets ---------------------------------------------------------------------------

  /** The octet that a constant stands for. */
  function Code(x: bv32): (r: Octet) { BitsFrom(x, 8) }

  lemma SameLow(x: bv32, y: bv32)
    requires x & 0xff == y
    ensures Code(x) == Code(y)
  {}

  lemma Marks()
    ensures MARK == Code(0x80) && forall n, i :: 0 <= i < n ==> Zeros(n)[i] == Code(0)
  {}

  lemma LittleHex(s: seq<Octet>, x: bv32)
    requires |s| == 4
    requires s[0] == Code(x) && s[1] == Code(Eight(x)) && s[2] == Code(Eight(Eight(x)))
    requires s[3] == Code(Eight(Eight(Eight(x))))
    ensures LoadLittle(s) == Hex(x)
  {
    hide BitsFrom, Low, Down, Eight;
    DownNothing(x);
    DownEight(x);
    DownEight(Eight(x));
    DownEight(Eight(Eight(x)));
    DownDown(x, 8, 8);
    DownDown(x, 16, 8);
    forall i | 0 <= i < 32 ensures LoadLittle(s)[i] == Hex(x)[i] {
      var k, j := i / 8, i % 8;
      BitAt(x, 32, i);
      BitAt(Down(x, 8 * k), 8, j);
      DownDown(x, 8 * k, j);
    }
  }

  lemma BigHex(s: seq<Octet>, x: bv32)
    requires |s| == 4
    requires s[3] == Code(x) && s[2] == Code(Eight(x)) && s[1] == Code(Eight(Eight(x)))
    requires s[0] == Code(Eight(Eight(Eight(x))))
    ensures LoadBig(s) == Hex(x)
  {
    hide Hex, Code, Eight;
    var t := [s[3], s[2], s[1], s[0]];
    LittleHex(t, x);
    assert LoadBig(s) == LoadLittle(t);
  }

  /** The octets of a constant, high one first. */
  lemma StoredHex(x: bv32)
    ensures StoreBig(Hex(x)) == [Code(Eight(Eight(Eight(x)))), Code(Eight(Eight(x))), Code(Eight(x)), Code(x)]
    ensures StoreLittle(Hex(x)) == [Code(x), Code(Eight(x)), Code(Eight(Eight(x))), Code(Eight(Eight(Eight(x))))]
  {
    hide Code, Eight, Hex, LoadLittle;
    var s := [Code(x), Code(Eight(x)), Code(Eight(Eight(x))), Code(Eight(Eight(Eight(x))))];
    LittleHex(s, x);
    forall k | 0 <= k < 4 ensures Octet0(Hex(x), k) == s[k] {
      forall i | 0 <= i < 8 ensures Octet0(Hex(x), k)[i] == s[k][i] {
        LittleAt(s, k, i);
      }
    }
  }

  lemma LittleAt(s: seq<Octet>, k: nat, i: nat)
    requires |s| == 4 && k < 4 && i < 8
    ensures LoadLittle(s)[8 * k + i] == s[k][i]
  {
    Quotient(8 * k + i, 8, k, i);
  }

  // ----- numbers --------------------------------------------------------------------------

  /** The same bits in a number and in a bit vector. */
  predicate Same(n: nat, x: bv32)
    decreases n
  {
    if n == 0 then x == 0 else (n % 2 == 1) == Low(x) && Same(n / 2, Halved(x))
  }

  lemma {:induction false} SameBits(n: nat, x: bv32, width: nat)
    requires Same(n, x)
    ensures FromNat(n, width) == BitsFrom(x, width)
    decreases width
  {
    if width > 0 {
      if n == 0 { SameBits(0, 0, width - 1); } else { SameBits(n / 2, Halved(x), width - 1); }
    }
  }

  lemma SameWord(n: nat, x: bv32)
    requires Same(n, x)
    ensures Word32(n) == Hex(x)
  {
    hide BitsFrom, FromNat, Same;
    SameBits(n, x, 32);
  }

  // ----- messages of one block ------------------------------------------------------------

  lemma OneBlock<S>(f: (S, Block) -> S, s: S, b: Block)
    ensures Fold(f, s, b) == f(s, b)
  {
    assert b[..64] == b && b[64..] == [];
  }

  /** Three bytes, 53 of padding and eight of length. */
  lemma ThreeParts(m: seq<Octet>, padding: seq<Octet>, length: seq<Octet>)
    requires |m| == 3 && |padding| == 53 && |length| == 8
    ensures var b := m + padding + length;
            && |b| == 64 && b[0] == m[0] && b[1] == m[1] && b[2] == m[2] && b[3] == padding[0]
            && (forall i :: 4 <= i < 56 ==> b[i] == padding[i - 3])
            && (forall i :: 56 <= i < 64 ==> b[i] == length[i - 56])
  {}

  lemma PaddingOfThree()
    ensures |Padding(3)| == 53 && Padding(3)[0] == Code(0x80)
    ensures forall i :: 1 <= i < 53 ==> Padding(3)[i] == Code(0)
  {
    hide Zeros, Code;
    Marks();
    assert Padding(3) == [MARK] + Zeros(52);
    assert forall i :: 1 <= i < 53 ==> Padding(3)[i] == Zeros(52)[i - 1];
  }

  /** "abc". */
  const ABC: seq<Octet> := [Code(0x61), Code(0x62), Code(0x63)]
}
