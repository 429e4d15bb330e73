/** The S-box as the table that FIPS 197 prints (figure 7). */
module SBoxTable {
  import opened GaloisField
  import opened SBox

  // ----- the affine map -------------------------------------------------------------------

  function BTurn(x: bv8): (r: bv8) { (x << 1) | (x >> 7) }

  function BAffine(x: bv8): (r: bv8) {
    var y1 := BTurn(x);
    var y2 := BTurn(y1);
    var y3 := BTurn(y2);
    BXor(BXor(BXor(BXor(BXor(x, y1), y2), y3), BTurn(y3)), 0x63)
  }

  lemma TurnHex(x: bv8)
    ensures Rotate(Hex(x)) == Hex(BTurn(x))
  {
    hide Hex;
    HexIs(x);
    HexIs(BTurn(x));
  }

  lemma ConstantHex()
    ensures Hex(0x63) == C63
  {
    hide Hex;
    HexIs(0x63);
  }

  lemma AffineHex(x: bv8)
    ensures Xor(Linear(Hex(x)), C63) == Hex(BAffine(x))
  {
    hide Hex, Xor, Linear, Rotate, BTurn, BXor;
    LinearIs(Hex(x));
    var y1 := BTurn(x);
    var y2 := BTurn(y1);
    var y3 := BTurn(y2);
    var y4 := BTurn(y3);
    TurnHex(x);
    TurnHex(y1);
    TurnHex(y2);
    TurnHex(y3);
    var s1 := BXor(x, y1);
    var s2 := BXor(s1, y2);
    var s3 := BXor(s2, y3);
    var s4 := BXor(s3, y4);
    XorHex(x, y1);
    XorHex(s1, y2);
    XorHex(s2, y3);
    XorHex(s3, y4);
    XorHex(s4, 0x63);
    ConstantHex();
  }

  // ----- entries --------------------------------------------------------------------------

  /** If two powers multiply to 1, the second is the power of what is left to 255. */
  lemma OppositePower(a: nat, b: nat)
    requires 1 <= a <= 255 && 1 <= b <= 255 && Pow(a + b) == ONE
    ensures Pow(255 - a) == Pow(b)
  {
    hide Mul, Pow;
    PowersTo255();
    if a + b < 255 { PowInjective(a + b, 255); }
    if 255 < a + b < 510 { PowInjective(255, a + b); }
    if a + b == 510 { PowZero(); }
  }

  // ----- the table ------------------------------------------------------------------------

  /** The S-box as a table: the line of the high digit, and in it the byte of the low digit. */
  function Printed(x: bv8): (r: bv8) {
    var h := x & 0xf0;
    var line: bv128 :=
      if h == 0x00 then 0x637c777bf26b6fc53001672bfed7ab76
      else if h == 0x10 then 0xca82c97dfa5947f0add4a2af9ca472c0
      else if h == 0x20 then 0xb7fd9326363ff7cc34a5e5f171d83115
      else if h == 0x30 then 0x04c723c31896059a071280e2eb27b275
      else if h == 0x40 then 0x09832c1a1b6e5aa0523bd6b329e32f84
      else if h == 0x50 then 0x53d100ed20fcb15b6acbbe394a4c58cf
      else if h == 0x60 then 0xd0efaafb434d338545f9027f503c9fa8
      else if h == 0x70 then 0x51a3408f929d38f5bcb6da2110fff3d2
      else if h == 0x80 then 0xcd0c13ec5f974417c4a77e3d645d1973
      else if h == 0x90 then 0x60814fdc222a908846eeb814de5e0bdb
      else if h == 0xa0 then 0xe0323a0a4906245cc2d3ac629195e479
      else if h == 0xb0 then 0xe7c8376d8dd54ea96c56f4ea657aae08
      else if h == 0xc0 then 0xba78252e1ca6b4c6e8dd741f4bbd8b8a
      else if h == 0xd0 then 0x703eb5664803f60e613557b986c11d9e
      else if h == 0xe0 then 0xe1f8981169d98e949b1e87e9ce5528df
      else 0x8ca1890dbfe6426841992d0fb054bb16;
    ((line >> ((15 - (x & 0x0f)) << 3)) & 0xff) as bv8
  }

  ghost predicate Agrees(x: bv8) { S(Hex(x)) == Hex(Printed(x)) }

  /** Multiplied by its inverse a byte gives 1, and the affine map takes the inverse to the entry. */
  lemma Entry(x: bv8, y: bv8)
    requires BMul(x, y) == 1 && BAffine(y) == Printed(x)
    ensures Agrees(x)
  {
    hide BMul, BAffine, Hex, Mul, Xor, Linear, Printed, Pow;
    MulHex(x, y);
    ZeroHex();
    AffineHex(y);
    // A product of 1 makes the factors inverse to one another.
    var a, b := Hex(x), Hex(y);
    ZeroTimes(a);
    ZeroTimes(b);
    assert a != ZERO && b != ZERO;
    PowAdd(Log(a), Log(b));
    OppositePower(Log(a), Log(b));
  }

  lemma EntryOfZero()
    ensures Agrees(0)
  {
    hide Hex, Xor, Linear;
    ZeroHex();
    AffineHex(0);
  }

  lemma Line0(x: bv8)
    requires x & 0xf0 == 0x00
    ensures Agrees(x)
  {
    hide Agrees;
    EntryOfZero(); Entry(0x01, 0x01); Entry(0x02, 0x8d); Entry(0x03, 0xf6); Entry(0x04, 0xcb);
    Entry(0x05, 0x52); Entry(0x06, 0x7b); Entry(0x07, 0xd1); Entry(0x08, 0xe8); Entry(0x09, 0x4f);
    Entry(0x0a, 0x29); Entry(0x0b, 0xc0); Entry(0x0c, 0xb0); Entry(0x0d, 0xe1); Entry(0x0e, 0xe5);
    Entry(0x0f, 0xc7);
    Sixteen(x, 0x00);
  }

  lemma Line1(x: bv8)
    requires x & 0xf0 == 0x10
    ensures Agrees(x)
  {
    hide Agrees;
    Entry(0x10, 0x74); Entry(0x11, 0xb4); Entry(0x12, 0xaa); Entry(0x13, 0x4b); Entry(0x14, 0x99);
    Entry(0x15, 0x2b); Entry(0x16, 0x60); Entry(0x17, 0x5f); Entry(0x18, 0x58); Entry(0x19, 0x3f);
    Entry(0x1a, 0xfd); Entry(0x1b, 0xcc); Entry(0x1c, 0xff); Entry(0x1d, 0x40); Entry(0x1e, 0xee);
    Entry(0x1f, 0xb2);
    Sixteen(x, 0x10);
  }

  lemma Line2(x: bv8)
    requires x & 0xf0 == 0x20
    ensures Agrees(x)
  {
    hide Agrees;
    Entry(0x20, 0x3a); Entry(0x21, 0x6e); Entry(0x22, 0x5a); Entry(0x23, 0xf1); Entry(0x24, 0x55);
    Entry(0x25, 0x4d); Entry(0x26, 0xa8); Entry(0x27, 0xc9); Entry(0x28, 0xc1); Entry(0x29, 0x0a);
    Entry(0x2a, 0x98); Entry(0x2b, 0x15); Entry(0x2c, 0x30); Entry(0x2d, 0x44); Entry(0x2e, 0xa2);
    Entry(0x2f, 0xc2);
    Sixteen(x, 0x20);
  }

  lemma Line3(x: bv8)
    requires x & 0xf0 == 0x30
    ensures Agrees(x)
  {
    hide Agrees;
    Entry(0x30, 0x2c); Entry(0x31, 0x45); Entry(0x32, 0x92); Entry(0x33, 0x6c); Entry(0x34, 0xf3);
    Entry(0x35, 0x39); Entry(0x36, 0x66); Entry(0x37, 0x42); Entry(0x38, 0xf2); Entry(0x39, 0x35);
    Entry(0x3a, 0x20); Entry(0x3b, 0x6f); Entry(0x3c, 0x77); Entry(0x3d, 0xbb); Entry(0x3e, 0x59);
    Entry(0x3f, 0x19);
    Sixteen(x, 0x30);
  }

  lemma Line4(x: bv8)
    requires x & 0xf0 == 0x40
    ensures Agrees(x)
  {
    hide Agrees;
    Entry(0x40, 0x1d); Entry(0x41, 0xfe); Entry(0x42, 0x37); Entry(0x43, 0x67); Entry(0x44, 0x2d);
    Entry(0x45, 0x31); Entry(0x46, 0xf5); Entry(0x47, 0x69); Entry(0x48, 0xa7); Entry(0x49, 0x64);
    Entry(0x4a, 0xab); Entry(0x4b, 0x13); Entry(0x4c, 0x54); Entry(0x4d, 0x25); Entry(0x4e, 0xe9);
    Entry(0x4f, 0x09);
    Sixteen(x, 0x40);
  }

  lemma Line5(x: bv8)
    requires x & 0xf0 == 0x50
    ensures Agrees(x)
  {
    hide Agrees;
    Entry(0x50, 0xed); Entry(0x51, 0x5c); Entry(0x52, 0x05); Entry(0x53, 0xca); Entry(0x54, 0x4c);
    Entry(0x55, 0x24); Entry(0x56, 0x87); Entry(0x57, 0xbf); Entry(0x58, 0x18); Entry(0x59, 0x3e);
    Entry(0x5a, 0x22); Entry(0x5b, 0xf0); Entry(0x5c, 0x51); Entry(0x5d, 0xec); Entry(0x5e, 0x61);
    Entry(0x5f, 0x17);
    Sixteen(x, 0x50);
  }

  lemma Line6(x: bv8)
    requires x & 0xf0 == 0x60
    ensures Agrees(x)
  {
    hide Agrees;
    Entry(0x60, 0x16); Entry(0x61, 0x5e); Entry(0x62, 0xaf); Entry(0x63, 0xd3); Entry(0x64, 0x49);
    Entry(0x65, 0xa6); Entry(0x66, 0x36); Entry(0x67, 0x43); Entry(0x68, 0xf4); Entry(0x69, 0x47);
    Entry(0x6a, 0x91); Entry(0x6b, 0xdf); Entry(0x6c, 0x33); Entry(0x6d, 0x93); Entry(0x6e, 0x21);
    Entry(0x6f, 0x3b);
    Sixteen(x, 0x60);
  }

  lemma Line7(x: bv8)
    requires x & 0xf0 == 0x70
    ensures Agrees(x)
  {
    hide Agrees;
    Entry(0x70, 0x79); Entry(0x71, 0xb7); Entry(0x72, 0x97); Entry(0x73, 0x85); Entry(0x74, 0x10);
    Entry(0x75, 0xb5); Entry(0x76, 0xba); Entry(0x77, 0x3c); Entry(0x78, 0xb6); Entry(0x79, 0x70);
    Entry(0x7a, 0xd0); Entry(0x7b, 0x06); Entry(0x7c, 0xa1); Entry(0x7d, 0xfa); Entry(0x7e, 0x81);
    Entry(0x7f, 0x82);
    Sixteen(x, 0x70);
  }

  lemma Line8(x: bv8)
    requires x & 0xf0 == 0x80
    ensures Agrees(x)
  {
    hide Agrees;
    Entry(0x80, 0x83); Entry(0x81, 0x7e); Entry(0x82, 0x7f); Entry(0x83, 0x80); Entry(0x84, 0x96);
    Entry(0x85, 0x73); Entry(0x86, 0xbe); Entry(0x87, 0x56); Entry(0x88, 0x9b); Entry(0x89, 0x9e);
    Entry(0x8a, 0x95); Entry(0x8b, 0xd9); Entry(0x8c, 0xf7); Entry(0x8d, 0x02); Entry(0x8e, 0xb9);
    Entry(0x8f, 0xa4);
    Sixteen(x, 0x80);
  }

  lemma Line9(x: bv8)
    requires x & 0xf0 == 0x90
    ensures Agrees(x)
  {
    hide Agrees;
    Entry(0x90, 0xde); Entry(0x91, 0x6a); Entry(0x92, 0x32); Entry(0x93, 0x6d); Entry(0x94, 0xd8);
    Entry(0x95, 0x8a); Entry(0x96, 0x84); Entry(0x97, 0x72); Entry(0x98, 0x2a); Entry(0x99, 0x14);
    Entry(0x9a, 0x9f); Entry(0x9b, 0x88); Entry(0x9c, 0xf9); Entry(0x9d, 0xdc); Entry(0x9e, 0x89);
    Entry(0x9f, 0x9a);
    Sixteen(x, 0x90);
  }

  lemma LineA(x: bv8)
    requires x & 0xf0 == 0xa0
    ensures Agrees(x)
  {
    hide Agrees;
    Entry(0xa0, 0xfb); Entry(0xa1, 0x7c); Entry(0xa2, 0x2e); Entry(0xa3, 0xc3); Entry(0xa4, 0x8f);
    Entry(0xa5, 0xb8); Entry(0xa6, 0x65); Entry(0xa7, 0x48); Entry(0xa8, 0x26); Entry(0xa9, 0xc8);
    Entry(0xaa, 0x12); Entry(0xab, 0x4a); Entry(0xac, 0xce); Entry(0xad, 0xe7); Entry(0xae, 0xd2);
    Entry(0xaf, 0x62);
    Sixteen(x, 0xa0);
  }

  lemma LineB(x: bv8)
    requires x & 0xf0 == 0xb0
    ensures Agrees(x)
  {
    hide Agrees;
    Entry(0xb0, 0x0c); Entry(0xb1, 0xe0); Entry(0xb2, 0x1f); Entry(0xb3, 0xef); Entry(0xb4, 0x11);
    Entry(0xb5, 0x75); Entry(0xb6, 0x78); Entry(0xb7, 0x71); Entry(0xb8, 0xa5); Entry(0xb9, 0x8e);
    Entry(0xba, 0x76); Entry(0xbb, 0x3d); Entry(0xbc, 0xbd); Entry(0xbd, 0xbc); Entry(0xbe, 0x86);
    Entry(0xbf, 0x57);
    Sixteen(x, 0xb0);
  }

  lemma LineC(x: bv8)
    requires x & 0xf0 == 0xc0
    ensures Agrees(x)
  {
    hide Agrees;
    Entry(0xc0, 0x0b); Entry(0xc1, 0x28); Entry(0xc2, 0x2f); Entry(0xc3, 0xa3); Entry(0xc4, 0xda);
    Entry(0xc5, 0xd4); Entry(0xc6, 0xe4); Entry(0xc7, 0x0f); Entry(0xc8, 0xa9); Entry(0xc9, 0x27);
    Entry(0xca, 0x53); Entry(0xcb, 0x04); Entry(0xcc, 0x1b); Entry(0xcd, 0xfc); Entry(0xce, 0xac);
    Entry(0xcf, 0xe6);
    Sixteen(x, 0xc0);
  }

  lemma LineD(x: bv8)
    requires x & 0xf0 == 0xd0
    ensures Agrees(x)
  {
    hide Agrees;
    Entry(0xd0, 0x7a); Entry(0xd1, 0x07); Entry(0xd2, 0xae); Entry(0xd3, 0x63); Entry(0xd4, 0xc5);
    Entry(0xd5, 0xdb); Entry(0xd6, 0xe2); Entry(0xd7, 0xea); Entry(0xd8, 0x94); Entry(0xd9, 0x8b);
    Entry(0xda, 0xc4); Entry(0xdb, 0xd5); Entry(0xdc, 0x9d); Entry(0xdd, 0xf8); Entry(0xde, 0x90);
    Entry(0xdf, 0x6b);
    Sixteen(x, 0xd0);
  }

  lemma LineE(x: bv8)
    requires x & 0xf0 == 0xe0
    ensures Agrees(x)
  {
    hide Agrees;
    Entry(0xe0, 0xb1); Entry(0xe1, 0x0d); Entry(0xe2, 0xd6); Entry(0xe3, 0xeb); Entry(0xe4, 0xc6);
    Entry(0xe5, 0x0e); Entry(0xe6, 0xcf); Entry(0xe7, 0xad); Entry(0xe8, 0x08); Entry(0xe9, 0x4e);
    Entry(0xea, 0xd7); Entry(0xeb, 0xe3); Entry(0xec, 0x5d); Entry(0xed, 0x50); Entry(0xee, 0x1e);
    Entry(0xef, 0xb3);
    Sixteen(x, 0xe0);
  }

  lemma LineF(x: bv8)
    requires x & 0xf0 == 0xf0
    ensures Agrees(x)
  {
    hide Agrees;
    Entry(0xf0, 0x5b); Entry(0xf1, 0x23); Entry(0xf2, 0x38); Entry(0xf3, 0x34); Entry(0xf4, 0x68);
    Entry(0xf5, 0x46); Entry(0xf6, 0x03); Entry(0xf7, 0x8c); Entry(0xf8, 0xdd); Entry(0xf9, 0x9c);
    Entry(0xfa, 0x7d); Entry(0xfb, 0xa0); Entry(0xfc, 0xcd); Entry(0xfd, 0x1a); Entry(0xfe, 0x41);
    Entry(0xff, 0x1c);
    Sixteen(x, 0xf0);
  }

  lemma Sixteen(x: bv8, h: bv8)
    requires x & 0xf0 == h
    ensures x == h || x == h | 1 || x == h | 2 || x == h | 3 || x == h | 4 || x == h | 5 || x == h | 6 || x == h | 7
         || x == h | 8 || x == h | 9 || x == h | 10 || x == h | 11 || x == h | 12 || x == h | 13 || x == h | 14
         || x == h | 15
  {}

  /** The S-box that the code generates is the printed one, for every byte. */
  lemma SBoxIsTable(x: bv8)
    ensures S(Hex(x)) == Hex(Printed(x))
  {
    hide S, Hex, Printed;
    HighDigit(x);
    if x & 0xf0 == 0x00 { Line0(x); }
    if x & 0xf0 == 0x10 { Line1(x); }
    if x & 0xf0 == 0x20 { Line2(x); }
    if x & 0xf0 == 0x30 { Line3(x); }
    if x & 0xf0 == 0x40 { Line4(x); }
    if x & 0xf0 == 0x50 { Line5(x); }
    if x & 0xf0 == 0x60 { Line6(x); }
    if x & 0xf0 == 0x70 { Line7(x); }
    if x & 0xf0 == 0x80 { Line8(x); }
    if x & 0xf0 == 0x90 { Line9(x); }
    if x & 0xf0 == 0xa0 { LineA(x); }
    if x & 0xf0 == 0xb0 { LineB(x); }
    if x & 0xf0 == 0xc0 { LineC(x); }
    if x & 0xf0 == 0xd0 { LineD(x); }
    if x & 0xf0 == 0xe0 { LineE(x); }
    if x & 0xf0 == 0xf0 { LineF(x); }
  }

  lemma HighDigit(x: bv8)
    ensures var h := x & 0xf0;
            || h == 0x00 || h == 0x10 || h == 0x20 || h == 0x30 || h == 0x40 || h == 0x50 || h == 0x60 || h == 0x70
            || h == 0x80 || h == 0x90 || h == 0xa0 || h == 0xb0 || h == 0xc0 || h == 0xd0 || h == 0xe0 || h == 0xf0
  {}

  /** Three entries as numbers. */
  lemma SBoxValues()
    ensures S(Hex(0x00)) == Hex(0x63) && S(Hex(0x01)) == Hex(0x7c) && S(Hex(0x53)) == Hex(0xed)
  {
    hide S, Hex;
    SBoxIsTable(0x00);
    SBoxIsTable(0x01);
    SBoxIsTable(0x53);
  }
}
