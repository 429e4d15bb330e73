/** Base64 and percent encoding against the standards: the alphabet and vectors of RFC 4648, the
    unreserved characters of RFC 3986. */
module TextAnswers {
  import opened Arithmetic
  import opened ThriftTypes
  import opened Base64
  import opened UrlCode

  // ----- Base64 ---------------------------------------------------------------------------

  /** Table 1 of RFC 4648, eight characters to a row. */
  function Row(k: nat): (r: string)
    requires k < 8
    ensures |r| == 8
  {
    match k
    case 0 => "ABCDEFGH"
    case 1 => "IJKLMNOP"
    case 2 => "QRSTUVWX"
    case 3 => "YZabcdef"
    case 4 => "ghijklmn"
    case 5 => "opqrstuv"
    case 6 => "wxyz0123"
    case _ => "456789+/"
  }

  lemma Alphabet(k: nat, i: nat)
    requires k < 8 && i < 8
    ensures Char(8 * k + i) as int == Row(k)[i] as int
  {
    match k
    case 0 =>
    case 1 =>
    case 2 =>
    case 3 =>
    case 4 =>
    case 5 =>
    case 6 =>
    case 7 =>
  }

  /** "f", "fo", "foo" and "bar". */
  lemma Quads()
    ensures Quad(0x66, 0, 0) == [0x5a, 0x67, 0x41, 0x41] && Quad(0x66, 0x6f, 0) == [0x5a, 0x6d, 0x38, 0x41]
    ensures Quad(0x66, 0x6f, 0x6f) == [0x5a, 0x6d, 0x39, 0x76] && Quad(0x62, 0x61, 0x72) == [0x59, 0x6d, 0x46, 0x79]
  {
    hide *;
    Quad1();
    Quad2();
    Quad3();
    Quad4();
  }

  lemma Quad1()
    ensures Quad(0x66, 0, 0) == [0x5a, 0x67, 0x41, 0x41]
  {
    QuadOf(0x66, 0, 0, 25, 32, 0, 0);
  }

  lemma Quad2()
    ensures Quad(0x66, 0x6f, 0) == [0x5a, 0x6d, 0x38, 0x41]
  {
    QuadOf(0x66, 0x6f, 0, 25, 38, 60, 0);
  }

  lemma Quad3()
    ensures Quad(0x66, 0x6f, 0x6f) == [0x5a, 0x6d, 0x39, 0x76]
  {
    QuadOf(0x66, 0x6f, 0x6f, 25, 38, 61, 47);
  }

  lemma Quad4()
    ensures Quad(0x62, 0x61, 0x72) == [0x59, 0x6d, 0x46, 0x79]
  {
    QuadOf(0x62, 0x61, 0x72, 24, 38, 5, 50);
  }

  /** A group from its four six-bit numbers. */
  lemma QuadOf(a: byte, b: byte, c: byte, i: nat, j: nat, k: nat, l: nat)
    requires i < 64 && j < 64 && k < 64 && l < 64
    requires 0x1_0000 * a + 0x100 * b + c == 0x4_0000 * i + 0x1000 * j + 64 * k + l
    ensures Quad(a, b, c) == [Char(i), Char(j), Char(k), Char(l)]
  {
    hide Char;
    var v := (a as int * 0x100 + b) * 0x100 + c;
    Quotient(v, 0x4_0000, i, 0x1000 * j + 64 * k + l);
    Quotient(v, 0x1000, 64 * i + j, 64 * k + l);
    Quotient(64 * i + j, 64, i, j);
    Quotient(v, 64, 0x1000 * i + 64 * j + k, l);
    Quotient(0x1000 * i + 64 * j + k, 64, 64 * i + j, k);
  }

  /** The vectors of section 10 of RFC 4648 for them. */
  lemma Vectors(e: seq<byte>)
    ensures IsEncoding([0x66], e) <==> e == [0x5a, 0x67, 0x3d, 0x3d]
    ensures IsEncoding([0x66, 0x6f], e) <==> e == [0x5a, 0x6d, 0x38, 0x3d]
    ensures IsEncoding([0x66, 0x6f, 0x6f], e) <==> e == [0x5a, 0x6d, 0x39, 0x76]
    ensures IsEncoding([0x66, 0x6f, 0x6f, 0x62, 0x61, 0x72], e)
        <==> e == [0x5a, 0x6d, 0x39, 0x76, 0x59, 0x6d, 0x46, 0x79]
  {
    hide *;
    OneByte(e);
    TwoBytes(e);
    ThreeBytes(e);
    SixBytes(e);
  }

  lemma OneByte(e: seq<byte>)
    ensures IsEncoding([0x66], e) <==> e == [0x5a, 0x67, 0x3d, 0x3d]
  {
    hide Quad;
    Quads();
    assert |e| == 4 ==> e[0..] == e;
  }

  lemma TwoBytes(e: seq<byte>)
    ensures IsEncoding([0x66, 0x6f], e) <==> e == [0x5a, 0x6d, 0x38, 0x3d]
  {
    hide Quad;
    Quads();
    assert |e| == 4 ==> e[0..] == e;
  }

  lemma ThreeBytes(e: seq<byte>)
    ensures IsEncoding([0x66, 0x6f, 0x6f], e) <==> e == [0x5a, 0x6d, 0x39, 0x76]
  {
    hide Quad, GroupAt;
    Quads();
    var s := [0x66, 0x6f, 0x6f];
    assert GroupAt(s, e, 0) <==> |e| >= 4 && e[0..4] == Quad(0x66, 0x6f, 0x6f) by { GroupIs(s, e, 0); }
  }

  lemma SixBytes(e: seq<byte>)
    ensures IsEncoding([0x66, 0x6f, 0x6f, 0x62, 0x61, 0x72], e)
        <==> e == [0x5a, 0x6d, 0x39, 0x76, 0x59, 0x6d, 0x46, 0x79]
  {
    hide Quad, GroupAt;
    Quads();
    var s := [0x66, 0x6f, 0x6f, 0x62, 0x61, 0x72];
    GroupIs(s, e, 0);
    GroupIs(s, e, 1);
    assert |e| == 8 ==> e == e[0..4] + e[4..8];
  }

  lemma GroupIs(s: seq<byte>, e: seq<byte>, j: nat)
    requires 3 * j + 3 <= |s|
    ensures GroupAt(s, e, j)
       <==> |e| >= 4 * j + 4 && e[4 * j..4 * j + 4] == Quad(s[3 * j], s[3 * j + 1], s[3 * j + 2])
  {
    hide Quad;
  }

  // ----- percent encoding -----------------------------------------------------------------

  /** Section 2.3 of RFC 3986: letters, digits, hyphen, full stop, underscore and tilde. */
  predicate Unreserved(x: byte) {
    || 0x41 <= x <= 0x5a || 0x61 <= x <= 0x7a || 0x30 <= x <= 0x39
    || x == 0x2d || x == 0x2e || x == 0x5f || x == 0x7e
  }

  /** The four low bits of a number, and the rest. */
  lemma Nibble(v: nat, q: nat, b3: bool, b2: bool, b1: bool, b0: bool, k: nat)
    requires v == 16 * q + Weight(b3, 8) + Weight(b2, 4) + Weight(b1, 2) + Weight(b0, 1)
    ensures k == 0 ==> Bit(v, k) == b0
    ensures k == 1 ==> Bit(v, k) == b1
    ensures k == 2 ==> Bit(v, k) == b2
    ensures k == 3 ==> Bit(v, k) == b3
    ensures k >= 4 ==> Bit(v, k) == Bit(q, k - 4)
  {
    var v1, v2, v3 := 8 * q + Weight(b3, 4) + Weight(b2, 2) + Weight(b1, 1), 4 * q + Weight(b3, 2) + Weight(b2, 1),
                      2 * q + Weight(b3, 1);
    NextBit(v, v1, b0, k);
    if k > 0 { NextBit(v1, v2, b1, k - 1); }
    if k > 1 { NextBit(v2, v3, b2, k - 2); }
    if k > 2 { NextBit(v3, q, b3, k - 3); }
  }

  lemma NextBit(v: nat, q: nat, b: bool, k: nat)
    requires v == 2 * q + Weight(b, 1)
    ensures Bit(v, k) == if k == 0 then b else Bit(q, k - 1)
  {
    Quotient(v, 2, q, Weight(b, 1));
  }

  lemma Low1(k: nat)
    requires k < 16
    ensures Bit(0xfc009fff, k) <==> !Unreserved(32 + k)
  {
    hide Bit;
    Nibble(0xfc009fff, 0xfc009ff, true, true, true, true, k);
    if k < 4 { return; }
    Nibble(0xfc009ff, 0xfc009f, true, true, true, true, k - 4);
    if k < 8 { return; }
    Nibble(0xfc009f, 0xfc009, true, true, true, true, k - 8);
    if k < 12 { return; }
    Nibble(0xfc009, 0xfc00, true, false, false, true, k - 12);
  }

  lemma High1(k: nat)
    requires 16 <= k < 32
    ensures Bit(0xfc009fff, k) <==> !Unreserved(32 + k)
  {
    BitFurther(0xfc009fff, k);
    hide Bit;
    Nibble(0xfc00, 0xfc0, false, false, false, false, k - 16);
    if k < 20 { return; }
    Nibble(0xfc0, 0xfc, false, false, false, false, k - 20);
    if k < 24 { return; }
    Nibble(0xfc, 0xf, true, true, false, false, k - 24);
    if k < 28 { return; }
    Nibble(0xf, 0x0, true, true, true, true, k - 28);
  }

  lemma Low2(k: nat)
    requires k < 16
    ensures Bit(0x78000001, k) <==> !Unreserved(64 + k)
  {
    hide Bit;
    Nibble(0x78000001, 0x7800000, false, false, false, true, k);
    if k < 4 { return; }
    Nibble(0x7800000, 0x780000, false, false, false, false, k - 4);
    if k < 8 { return; }
    Nibble(0x780000, 0x78000, false, false, false, false, k - 8);
    if k < 12 { return; }
    Nibble(0x78000, 0x7800, false, false, false, false, k - 12);
  }

  lemma High2(k: nat)
    requires 16 <= k < 32
    ensures Bit(0x78000001, k) <==> !Unreserved(64 + k)
  {
    BitFurther(0x78000001, k);
    hide Bit;
    Nibble(0x7800, 0x780, false, false, false, false, k - 16);
    if k < 20 { return; }
    Nibble(0x780, 0x78, false, false, false, false, k - 20);
    if k < 24 { return; }
    Nibble(0x78, 0x7, true, false, false, false, k - 24);
    if k < 28 { return; }
    Nibble(0x7, 0x0, false, true, true, true, k - 28);
  }

  lemma Low3(k: nat)
    requires k < 16
    ensures Bit(0xb8000001, k) <==> !Unreserved(96 + k)
  {
    hide Bit;
    Nibble(0xb8000001, 0xb800000, false, false, false, true, k);
    if k < 4 { return; }
    Nibble(0xb800000, 0xb80000, false, false, false, false, k - 4);
    if k < 8 { return; }
    Nibble(0xb80000, 0xb8000, false, false, false, false, k - 8);
    if k < 12 { return; }
    Nibble(0xb8000, 0xb800, false, false, false, false, k - 12);
  }

  lemma High3(k: nat)
    requires 16 <= k < 32
    ensures Bit(0xb8000001, k) <==> !Unreserved(96 + k)
  {
    BitFurther(0xb8000001, k);
    hide Bit;
    Nibble(0xb800, 0xb80, false, false, false, false, k - 16);
    if k < 20 { return; }
    Nibble(0xb80, 0xb8, false, false, false, false, k - 20);
    if k < 24 { return; }
    Nibble(0xb8, 0xb, true, false, false, false, k - 24);
    if k < 28 { return; }
    Nibble(0xb, 0x0, true, false, true, true, k - 28);
  }

  /** All bits of a word are set. */
  lemma Ones(k: nat)
    requires k < 16
    ensures Bit(0xffffffff, k) && Bit(0xffffffff, k + 16)
  {
    BitFurther(0xffffffff, k + 16);
    LowOnes(0xffffffff, 0xfffffff, 0xffffff, 0xfffff, k);
    LowOnes(0xffff, 0xfff, 0xff, 0xf, k);
  }

  lemma LowOnes(w: nat, w1: nat, w2: nat, w3: nat, k: nat)
    requires k < 16 && w == 16 * w1 + 15 && w1 == 16 * w2 + 15 && w2 == 16 * w3 + 15 && w3 % 16 == 15
    ensures Bit(w, k)
  {
    hide Bit;
    Nibble(w, w1, true, true, true, true, k);
    if k < 4 { return; }
    Nibble(w1, w2, true, true, true, true, k - 4);
    if k < 8 { return; }
    Nibble(w2, w3, true, true, true, true, k - 8);
    if k < 12 { return; }
    Nibble(w3, w3 / 16, true, true, true, true, k - 12);
  }

  /** A URI component has everything escaped but the unreserved characters. */
  lemma ComponentEscapes(x: byte)
    ensures Escaped(UriComponent, x) <==> !Unreserved(x)
  {
    hide Bit;
    var k := x % 32;
    if x < 0x20 || x >= 0x80 { Ones(k % 16); }
    else if x < 0x40 { if k < 16 { Low1(k); } else { High1(k); } }
    else if x < 0x60 { if k < 16 { Low2(k); } else { High2(k); } }
    else { if k < 16 { Low3(k); } else { High3(k); } }
  }

  lemma UriWord(k: nat)
    requires k < 32
    ensures Bit(0x80000029, k) <==> k == 0 || k == 3 || k == 5 || k == 31
  {
    hide Bit;
    if k < 16 {
      UriWordLow(k);
    } else {
      BitFurther(0x80000029, k);
      UriWordHigh(k);
    }
  }

  lemma UriWordLow(k: nat)
    requires k < 16
    ensures Bit(0x80000029, k) <==> k == 0 || k == 3 || k == 5
  {
    hide Bit;
    Nibble(0x80000029, 0x8000002, true, false, false, true, k);
    if k < 4 { return; }
    Nibble(0x8000002, 0x800000, false, false, true, false, k - 4);
    if k < 8 { return; }
    Nibble(0x800000, 0x80000, false, false, false, false, k - 8);
    if k < 12 { return; }
    Nibble(0x80000, 0x8000, false, false, false, false, k - 12);
  }

  lemma UriWordHigh(k: nat)
    requires 16 <= k < 32
    ensures Bit(0x8000, k - 16) <==> k == 31
  {
    hide Bit;
    Nibble(0x8000, 0x800, false, false, false, false, k - 16);
    if k < 20 { return; }
    Nibble(0x800, 0x80, false, false, false, false, k - 20);
    if k < 24 { return; }
    Nibble(0x80, 0x8, false, false, false, false, k - 24);
    if k < 28 { return; }
    Nibble(0x8, 0x0, true, false, false, false, k - 28);
  }

  lemma ArgsWord(k: nat)
    requires k < 32
    ensures Bit(0x88000869, k) <==> k == 0 || k == 3 || k == 5 || k == 6 || k == 11 || k == 27 || k == 31
  {
    hide Bit;
    if k < 16 {
      ArgsWordLow(k);
    } else {
      BitFurther(0x88000869, k);
      ArgsWordHigh(k);
    }
  }

  lemma ArgsWordLow(k: nat)
    requires k < 16
    ensures Bit(0x88000869, k) <==> k == 0 || k == 3 || k == 5 || k == 6 || k == 11
  {
    hide Bit;
    Nibble(0x88000869, 0x8800086, true, false, false, true, k);
    if k < 4 { return; }
    Nibble(0x8800086, 0x880008, false, true, true, false, k - 4);
    if k < 8 { return; }
    Nibble(0x880008, 0x88000, true, false, false, false, k - 8);
    if k < 12 { return; }
    Nibble(0x88000, 0x8800, false, false, false, false, k - 12);
  }

  lemma ArgsWordHigh(k: nat)
    requires 16 <= k < 32
    ensures Bit(0x8800, k - 16) <==> k == 27 || k == 31
  {
    hide Bit;
    Nibble(0x8800, 0x880, false, false, false, false, k - 16);
    if k < 20 { return; }
    Nibble(0x880, 0x88, false, false, false, false, k - 20);
    if k < 24 { return; }
    Nibble(0x88, 0x8, true, false, false, false, k - 24);
    if k < 28 { return; }
    Nibble(0x8, 0x0, true, false, false, false, k - 28);
  }

  lemma HtmlWord(k: nat)
    requires k < 32
    ensures Bit(0x000000ad, k) <==> k == 0 || k == 2 || k == 3 || k == 5 || k == 7
  {
    hide Bit;
    if k < 16 {
      HtmlWordLow(k);
    } else {
      BitFurther(0x000000ad, k);
      HtmlWordHigh(k);
    }
  }

  lemma HtmlWordLow(k: nat)
    requires k < 16
    ensures Bit(0x000000ad, k) <==> k == 0 || k == 2 || k == 3 || k == 5 || k == 7
  {
    hide Bit;
    Nibble(0xad, 0xa, true, true, false, true, k);
    if k < 4 { return; }
    Nibble(0xa, 0x0, true, false, true, false, k - 4);
    if k < 8 { return; }
    Nibble(0x0, 0x0, false, false, false, false, k - 8);
    if k < 12 { return; }
    Nibble(0x0, 0x0, false, false, false, false, k - 12);
  }

  lemma HtmlWordHigh(k: nat)
    requires 16 <= k < 32
    ensures Bit(0x0, k - 16) <==> false
  {
    NoBit(k - 16);
  }

  lemma RefreshWord(k: nat)
    requires k < 32
    ensures Bit(0x00000085, k) <==> k == 0 || k == 2 || k == 7
  {
    hide Bit;
    if k < 16 {
      RefreshWordLow(k);
    } else {
      BitFurther(0x00000085, k);
      RefreshWordHigh(k);
    }
  }

  lemma RefreshWordLow(k: nat)
    requires k < 16
    ensures Bit(0x00000085, k) <==> k == 0 || k == 2 || k == 7
  {
    hide Bit;
    Nibble(0x85, 0x8, false, true, false, true, k);
    if k < 4 { return; }
    Nibble(0x8, 0x0, true, false, false, false, k - 4);
    if k < 8 { return; }
    Nibble(0x0, 0x0, false, false, false, false, k - 8);
    if k < 12 { return; }
    Nibble(0x0, 0x0, false, false, false, false, k - 12);
  }

  lemma RefreshWordHigh(k: nat)
    requires 16 <= k < 32
    ensures Bit(0x0, k - 16) <==> false
  {
    NoBit(k - 16);
  }

  lemma SpaceWord(k: nat)
    requires k < 32
    ensures Bit(0x00000021, k) <==> k == 0 || k == 5
  {
    hide Bit;
    if k < 16 {
      SpaceWordLow(k);
    } else {
      BitFurther(0x00000021, k);
      SpaceWordHigh(k);
    }
  }

  lemma SpaceWordLow(k: nat)
    requires k < 16
    ensures Bit(0x00000021, k) <==> k == 0 || k == 5
  {
    hide Bit;
    Nibble(0x21, 0x2, false, false, false, true, k);
    if k < 4 { return; }
    Nibble(0x2, 0x0, false, false, true, false, k - 4);
    if k < 8 { return; }
    Nibble(0x0, 0x0, false, false, false, false, k - 8);
    if k < 12 { return; }
    Nibble(0x0, 0x0, false, false, false, false, k - 12);
  }

  lemma SpaceWordHigh(k: nat)
    requires 16 <= k < 32
    ensures Bit(0x0, k - 16) <==> false
  {
    NoBit(k - 16);
  }

  lemma TopWord(k: nat)
    requires k < 32
    ensures Bit(0x80000000, k) <==> k == 31
  {
    hide Bit;
    if k < 16 {
      TopWordLow(k);
    } else {
      BitFurther(0x80000000, k);
      TopWordHigh(k);
    }
  }

  lemma TopWordLow(k: nat)
    requires k < 16
    ensures Bit(0x80000000, k) <==> false
  {
    hide Bit;
    Nibble(0x80000000, 0x8000000, false, false, false, false, k);
    if k < 4 { return; }
    Nibble(0x8000000, 0x800000, false, false, false, false, k - 4);
    if k < 8 { return; }
    Nibble(0x800000, 0x80000, false, false, false, false, k - 8);
    if k < 12 { return; }
    Nibble(0x80000, 0x8000, false, false, false, false, k - 12);
  }

  lemma TopWordHigh(k: nat)
    requires 16 <= k < 32
    ensures Bit(0x8000, k - 16) <==> k == 31
  {
    hide Bit;
    Nibble(0x8000, 0x800, false, false, false, false, k - 16);
    if k < 20 { return; }
    Nibble(0x800, 0x80, false, false, false, false, k - 20);
    if k < 24 { return; }
    Nibble(0x80, 0x8, false, false, false, false, k - 24);
    if k < 28 { return; }
    Nibble(0x8, 0x0, true, false, false, false, k - 28);
  }

  lemma {:induction false} NoBit(k: nat)
    ensures !Bit(0, k)
  {
    if k > 0 { NoBit(k - 1); }
  }

  /** What each class escapes.  The comments beside the bitmaps leave out the semicolon of `Args`, and
      list a percent sign for `Refresh` that its bitmap does not have. */
  predicate Listed(t: Escape, x: byte) {
    match t
    case Uri => x <= 0x20 || x >= 0x7f || x == 0x23 || x == 0x25 || x == 0x3f
    case Args =>
      || x <= 0x20 || x >= 0x7f || x == 0x23 || x == 0x25 || x == 0x26 || x == 0x2b || x == 0x3b || x == 0x3f
    case UriComponent => !Unreserved(x)
    case Html => x <= 0x20 || x >= 0x7f || x == 0x22 || x == 0x23 || x == 0x25 || x == 0x27
    case Refresh => x <= 0x20 || x >= 0x7f || x == 0x22 || x == 0x27
    case Memcached => x <= 0x20 || x == 0x25
    case MailAuth => x <= 0x20 || x == 0x25
  }

  lemma EscapesListed(t: Escape, x: byte)
    ensures Escaped(t, x) <==> Listed(t, x)
  {
    hide Bit, Unreserved;
    var k := x % 32;
    NoBit(k);
    Ones(k % 16);
    TopWord(k);
    match t
    case Uri => UriWord(k);
    case Args => ArgsWord(k);
    case UriComponent => ComponentEscapes(x);
    case Html => HtmlWord(k);
    case Refresh => RefreshWord(k);
    case Memcached => SpaceWord(k);
    case MailAuth => SpaceWord(k);
  }

  /** Section 2.1: a percent sign and two hexadecimal digits, in capitals. */
  const DIGITS: string := "0123456789ABCDEF"

  lemma PieceIs(x: byte)
    ensures Piece(UriComponent, x) == if Unreserved(x) then [x] else [0x25, Hex(x / 16), Hex(x % 16)]
    ensures Hex(x / 16) as int == DIGITS[x / 16] as int && Hex(x % 16) as int == DIGITS[x % 16] as int
  {
    hide Escaped, Unreserved, Hex;
    ComponentEscapes(x);
    DigitIs(x / 16);
    DigitIs(x % 16);
  }

  lemma DigitIs(n: nat)
    requires n < 16
    ensures Hex(n) as int == DIGITS[n] as int
  {}
}
