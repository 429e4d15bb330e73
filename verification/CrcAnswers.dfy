/** What fixes the two polynomials: residues, table entries and check values. */
module CrcAnswers {
  import opened Bits
  import opened Words
  import opened BitVectors
  import opened Crc
  import opened Crc32
  import HashAnswers
  import opened Crc32cMask

  // ----- steps on constants ---------------------------------------------------------------

  function BStep(p: bv32, c: bv32): (r: bv32) { if Low(c) then BXor(Halved(c), p) else Halved(c) }

  function BSteps(p: bv32, n: nat, c: bv32): (r: bv32)
    decreases n
  {
    if n == 0 then c else BStep(p, BSteps(p, n - 1, c))
  }

  lemma StepHex(p: bv32, c: bv32)
    ensures Step(Hex(p), Hex(c)) == Hex(BStep(p, c))
  {
    hide BitsFrom, Low, Halved, BXor, Xor, Shr;
    BitAt(c, 32, 0);
    DownNothing(c);
    DownOnce(c);
    ShrHex(c, 1);
    XorHex(Halved(c), p);
  }

  lemma DownOnce(x: bv32)
    ensures Down(x, 1) == Halved(x)
  {}

  lemma {:induction false} StepsHex(p: bv32, n: nat, c: bv32)
    ensures Steps(Hex(p), n, Hex(c)) == Hex(BSteps(p, n, c))
    decreases n
  {
    hide Hex, BStep, Step;
    if n > 0 {
      StepsHex(p, n - 1, c);
      StepHex(p, BSteps(p, n - 1, c));
    }
  }

  // ----- the residue ----------------------------------------------------------------------

  /** A message followed by the four bytes of its checksum leaves a register that depends on nothing
      else. */
  lemma ResidueOf(p: Word, sum: Word, s: seq<Octet>)
    ensures Checksum(p, sum, s + StoreLittle(Checksum(p, sum, s))) == Not(Steps(p, 32, ONES))
  {
    hide Steps, Run, StoreLittle, Not;
    var c := Run(p, Not(sum), s);
    var t := StoreLittle(Not(c));
    RunConcat(p, Not(sum), s, t);
    RunFour(p, c, t);
    XorNot(c);
  }

  lemma XorNot(c: Word)
    ensures Xor(c, Not(c)) == ONES
  {}

  // ----- working them out -----------------------------------------------------------------

  lemma Eight(p: bv32, c: bv32, d: bv32)
    requires BSteps(p, 8, c) == d
    ensures Steps(Hex(p), 8, Hex(c)) == Hex(d)
  {
    hide BSteps, Hex, Steps;
    StepsHex(p, 8, c);
  }

  /** The octets of the digits from `k` to 9. */
  function Rest(k: nat): (r: seq<Octet>)
    requires 1 <= k <= 10
    decreases 10 - k
  {
    if k == 10 then [] else [Digit(k)] + Rest(k + 1)
  }

  function Digit(k: nat): (r: Octet)
    requires 1 <= k <= 9
  {
    BitsFrom(Code(k), 8)
  }

  function Code(k: nat): (r: bv32) {
    match k
    case 1 => 0x31 case 2 => 0x32 case 3 => 0x33 case 4 => 0x34 case 5 => 0x35
    case 6 => 0x36 case 7 => 0x37 case 8 => 0x38 case _ => 0x39
  }

  lemma NextDigit(p: bv32, c: bv32, x: bv32, d: bv32, k: nat)
    requires 1 <= k <= 9 && BXor(c, Code(k)) == x && BSteps(p, 8, x) == d
    ensures Run(Hex(p), Hex(c), Rest(k)) == Run(Hex(p), Hex(d), Rest(k + 1))
  {
    hide BSteps, Hex, Steps, Code, BXor, Digit;
    Extended(k);
    XorHex(c, Code(k));
    Eight(p, x, d);
    assert Rest(k)[1..] == Rest(k + 1);
  }

  lemma NoMore(p: Word, c: Word)
    ensures Run(p, c, Rest(10)) == c
  {}

  lemma Extended(k: nat)
    requires 1 <= k <= 9
    ensures ZeroExtend(Digit(k)) == Hex(Code(k))
  {
    hide Code, BitsFrom;
    forall i | 0 <= i < 32 ensures ZeroExtend(Digit(k))[i] == Hex(Code(k))[i] {
      BitAt(Code(k), 32, i);
      if i < 8 { BitAt(Code(k), 8, i); } else { Small(k, i); }
    }
  }

  lemma Small(k: nat, i: nat)
    requires i >= 8
    ensures !Low(Down(Code(k), i))
  {
    hide Down;
    DownEight(Code(k));
    assert BitVectors.Eight(Code(k)) == 0;
    DownDown(Code(k), 8, i - 8);
    DownZero(i - 8);
  }

  lemma Crc32Ones()
    ensures Steps(CRC32_POLY, 32, ONES) == Hex(0xdebb20e3)
  {
    hide Steps, Hex;
    OnesHex();
    Eight(0xedb88320, 0xffffffff, 0x2dfd1072);
    Eight(0xedb88320, 0x2dfd1072, 0xbe26ed00);
    Eight(0xedb88320, 0xbe26ed00, 0x00be26ed);
    Eight(0xedb88320, 0x00be26ed, 0xdebb20e3);
    StepsAdd(CRC32_POLY, 24, 8, ONES);
    StepsAdd(CRC32_POLY, 16, 8, Hex(0x2dfd1072));
    StepsAdd(CRC32_POLY, 8, 8, Hex(0xbe26ed00));
  }

  /** The residue of Crc32: every message followed by its checksum, low byte first, has this one. */
  lemma Crc32Residue(sum: Word, s: seq<Octet>)
    ensures Checksum(CRC32_POLY, sum, s + StoreLittle(Checksum(CRC32_POLY, sum, s))) == Hex(0x2144df1c)
  {
    hide Steps, Checksum, StoreLittle, Hex;
    ResidueOf(CRC32_POLY, sum, s);
    Crc32Ones();
    NotHex(0xdebb20e3);
    assert BXor(0xdebb20e3, 0xffffffff) == 0x2144df1c;
  }

  /** The entries of the first table for the powers of two, from which all others are sums. */
  lemma Crc32Row()
    ensures Table(CRC32_POLY, 0, Hex(1)) == Hex(0x77073096) && Table(CRC32_POLY, 0, Hex(2)) == Hex(0xee0e612c)
    ensures Table(CRC32_POLY, 0, Hex(4)) == Hex(0x076dc419) && Table(CRC32_POLY, 0, Hex(8)) == Hex(0x0edb8832)
    ensures Table(CRC32_POLY, 0, Hex(16)) == Hex(0x1db71064) && Table(CRC32_POLY, 0, Hex(32)) == Hex(0x3b6e20c8)
    ensures Table(CRC32_POLY, 0, Hex(64)) == Hex(0x76dc4190) && Table(CRC32_POLY, 0, Hex(128)) == Hex(0xedb88320)
  {
    hide *;
    Crc32Row0();
    Crc32Row1();
    Crc32Row2();
    Crc32Row3();
  }

  lemma Crc32Row0()
    ensures Table(CRC32_POLY, 0, Hex(1)) == Hex(0x77073096) && Table(CRC32_POLY, 0, Hex(2)) == Hex(0xee0e612c)
  {
    hide Steps, Hex;
    Eight(0xedb88320, 1, 0x77073096);
    Eight(0xedb88320, 2, 0xee0e612c);
  }

  lemma Crc32Row1()
    ensures Table(CRC32_POLY, 0, Hex(4)) == Hex(0x076dc419) && Table(CRC32_POLY, 0, Hex(8)) == Hex(0x0edb8832)
  {
    hide Steps, Hex;
    Eight(0xedb88320, 4, 0x076dc419);
    Eight(0xedb88320, 8, 0x0edb8832);
  }

  lemma Crc32Row2()
    ensures Table(CRC32_POLY, 0, Hex(16)) == Hex(0x1db71064) && Table(CRC32_POLY, 0, Hex(32)) == Hex(0x3b6e20c8)
  {
    hide Steps, Hex;
    Eight(0xedb88320, 16, 0x1db71064);
    Eight(0xedb88320, 32, 0x3b6e20c8);
  }

  lemma Crc32Row3()
    ensures Table(CRC32_POLY, 0, Hex(64)) == Hex(0x76dc4190) && Table(CRC32_POLY, 0, Hex(128)) == Hex(0xedb88320)
  {
    hide Steps, Hex;
    Eight(0xedb88320, 64, 0x76dc4190);
    Eight(0xedb88320, 128, 0xedb88320);
  }

  /** The check value: the checksum of "123456789" from 0. */
  lemma Crc32Check()
    ensures Checksum(CRC32_POLY, ZERO, Rest(1)) == Hex(0xcbf43926)
  {
    hide Run, Hex, Rest, Not;
    NotZero();
    OnesHex();
    NextDigit(0xedb88320, 0xffffffff, 0xffffffce, 0x7c231048, 1);
    NextDigit(0xedb88320, 0x7c231048, 0x7c23107a, 0xb0acbb32, 2);
    NextDigit(0xedb88320, 0xb0acbb32, 0xb0acbb01, 0x77b79c2d, 3);
    NextDigit(0xedb88320, 0x77b79c2d, 0x77b79c19, 0x641c1f5c, 4);
    NextDigit(0xedb88320, 0x641c1f5c, 0x641c1f69, 0x340ac5e3, 5);
    NextDigit(0xedb88320, 0x340ac5e3, 0x340ac5d5, 0xf68d2c9e, 6);
    NextDigit(0xedb88320, 0xf68d2c9e, 0xf68d2ca9, 0xaffc9660, 7);
    NextDigit(0xedb88320, 0xaffc9660, 0xaffc9658, 0x651f2550, 8);
    NextDigit(0xedb88320, 0x651f2550, 0x651f2569, 0x340bc6d9, 9);
    NoMore(CRC32_POLY, Hex(0x340bc6d9));
    NotHex(0x340bc6d9);
    assert BXor(0x340bc6d9, 0xffffffff) == 0xcbf43926;
  }

  lemma Crc32cOnes()
    ensures Steps(CRC32C_POLY, 32, ONES) == Hex(0xb798b438)
  {
    hide Steps, Hex;
    OnesHex();
    Eight(0x82f63b78, 0xffffffff, 0xad82acae);
    Eight(0x82f63b78, 0xad82acae, 0x0e9e882d);
    Eight(0x82f63b78, 0x0e9e882d, 0x9f9b5c85);
    Eight(0x82f63b78, 0x9f9b5c85, 0xb798b438);
    StepsAdd(CRC32C_POLY, 24, 8, ONES);
    StepsAdd(CRC32C_POLY, 16, 8, Hex(0xad82acae));
    StepsAdd(CRC32C_POLY, 8, 8, Hex(0x0e9e882d));
  }

  /** The residue of Crc32c: every message followed by its checksum, low byte first, has this one. */
  lemma Crc32cResidue(sum: Word, s: seq<Octet>)
    ensures Checksum(CRC32C_POLY, sum, s + StoreLittle(Checksum(CRC32C_POLY, sum, s))) == Hex(0x48674bc7)
  {
    hide Steps, Checksum, StoreLittle, Hex;
    ResidueOf(CRC32C_POLY, sum, s);
    Crc32cOnes();
    NotHex(0xb798b438);
    assert BXor(0xb798b438, 0xffffffff) == 0x48674bc7;
  }

  /** The entries of the first table for the powers of two, from which all others are sums. */
  lemma Crc32cRow()
    ensures Table(CRC32C_POLY, 0, Hex(1)) == Hex(0xf26b8303) && Table(CRC32C_POLY, 0, Hex(2)) == Hex(0xe13b70f7)
    ensures Table(CRC32C_POLY, 0, Hex(4)) == Hex(0xc79a971f) && Table(CRC32C_POLY, 0, Hex(8)) == Hex(0x8ad958cf)
    ensures Table(CRC32C_POLY, 0, Hex(16)) == Hex(0x105ec76f) && Table(CRC32C_POLY, 0, Hex(32)) == Hex(0x20bd8ede)
    ensures Table(CRC32C_POLY, 0, Hex(64)) == Hex(0x417b1dbc) && Table(CRC32C_POLY, 0, Hex(128)) == Hex(0x82f63b78)
  {
    hide *;
    Crc32cRow0();
    Crc32cRow1();
    Crc32cRow2();
    Crc32cRow3();
  }

  lemma Crc32cRow0()
    ensures Table(CRC32C_POLY, 0, Hex(1)) == Hex(0xf26b8303) && Table(CRC32C_POLY, 0, Hex(2)) == Hex(0xe13b70f7)
  {
    hide Steps, Hex;
    Eight(0x82f63b78, 1, 0xf26b8303);
    Eight(0x82f63b78, 2, 0xe13b70f7);
  }

  lemma Crc32cRow1()
    ensures Table(CRC32C_POLY, 0, Hex(4)) == Hex(0xc79a971f) && Table(CRC32C_POLY, 0, Hex(8)) == Hex(0x8ad958cf)
  {
    hide Steps, Hex;
    Eight(0x82f63b78, 4, 0xc79a971f);
    Eight(0x82f63b78, 8, 0x8ad958cf);
  }

  lemma Crc32cRow2()
    ensures Table(CRC32C_POLY, 0, Hex(16)) == Hex(0x105ec76f) && Table(CRC32C_POLY, 0, Hex(32)) == Hex(0x20bd8ede)
  {
    hide Steps, Hex;
    Eight(0x82f63b78, 16, 0x105ec76f);
    Eight(0x82f63b78, 32, 0x20bd8ede);
  }

  lemma Crc32cRow3()
    ensures Table(CRC32C_POLY, 0, Hex(64)) == Hex(0x417b1dbc) && Table(CRC32C_POLY, 0, Hex(128)) == Hex(0x82f63b78)
  {
    hide Steps, Hex;
    Eight(0x82f63b78, 64, 0x417b1dbc);
    Eight(0x82f63b78, 128, 0x82f63b78);
  }

  /** The check value: the checksum of "123456789" from 0. */
  lemma Crc32cCheck()
    ensures Checksum(CRC32C_POLY, ZERO, Rest(1)) == Hex(0xe3069283)
  {
    hide Run, Hex, Rest, Not;
    NotZero();
    OnesHex();
    NextDigit(0x82f63b78, 0xffffffff, 0xffffffce, 0x6f0a661c, 1);
    NextDigit(0x82f63b78, 0x6f0a661c, 0x6f0a662e, 0x8caa3b9f, 2);
    NextDigit(0x82f63b78, 0x8caa3b9f, 0x8caa3bac, 0xef84d04d, 3);
    NextDigit(0x82f63b78, 0xef84d04d, 0xef84d079, 0x09c50b11, 4);
    NextDigit(0x82f63b78, 0x09c50b11, 0x09c50b24, 0xe72edcca, 5);
    NextDigit(0x82f63b78, 0xe72edcca, 0xe72edcfc, 0xbeca8e79, 6);
    NextDigit(0x82f63b78, 0xbeca8e79, 0xbeca8e4e, 0xedbd6815, 7);
    NextDigit(0x82f63b78, 0xedbd6815, 0xedbd682d, 0x9f787f65, 8);
    NextDigit(0x82f63b78, 0x9f787f65, 0x9f787f5c, 0x1cf96d7c, 9);
    NoMore(CRC32C_POLY, Hex(0x1cf96d7c));
    NotHex(0x1cf96d7c);
    assert BXor(0x1cf96d7c, 0xffffffff) == 0xe3069283;
  }

  /** The stored form of a checksum: turned right by 15 bits, and 0xa282ead8 added. */
  lemma MaskIs(c: bv32)
    ensures Mask(Hex(c)) == Hex(((c >> 15) | (c << 17)) + 0xa282ead8)
  {
    hide Hex, Add, Or, Shr, Shl, RotR, BAdd, Turns;
    ShiftsRotate(Hex(c), 15);
    TurnsHex(c, 15);
    HashAnswers.Turn15(c);
    AddHex(Turns(c, 15), 0xa282ead8);
    SumIs(Turns(c, 15), 0xa282ead8);
  }

  lemma SumIs(x: bv32, y: bv32)
    ensures BAdd(x, y) == x + y
  {}

  lemma MaskOfCheck()
    ensures Mask(Checksum(CRC32C_POLY, ZERO, Rest(1))) == Hex(0xc78ab0e5)
  {
    hide Hex, Checksum, Mask, Rest;
    Crc32cCheck();
    MaskIs(0xe3069283);
  }
}
