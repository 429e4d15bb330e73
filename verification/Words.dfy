/** 32-bit words with addition and the bitwise operators of the hash functions. */
module Words {
  import opened Arithmetic
  import opened Bits

  function Number(w: seq<bool>): (n: nat) { if w == [] then 0 else (if w[0] then 1 else 0) + 2 * Number(w[1..]) }

  /** Addition modulo 2^32. */
  function Add(a: Word, b: Word): (r: Word) { FromNat(Number(a) + Number(b), 32) }

  function And(a: Word, b: Word): (r: Word) { seq(32, i requires 0 <= i < 32 => a[i] && b[i]) }

  function Or(a: Word, b: Word): (r: Word) { seq(32, i requires 0 <= i < 32 => a[i] || b[i]) }

  /** Rotations, as the standards define them. */
  function RotR(a: Word, n: nat): (r: Word) { seq(32, i requires 0 <= i < 32 => a[(i + n) % 32]) }

  function RotL(a: Word, n: nat): (r: Word)
    requires n <= 32
  {
    RotR(a, 32 - n)
  }

  /** The two shifts that the code makes a rotation of. */
  lemma ShiftsRotate(a: Word, n: nat)
    requires 0 < n < 32
    ensures Or(Shr(a, n), Shl(a, 32 - n)) == RotR(a, n)
    ensures Or(Shl(a, n), Shr(a, 32 - n)) == RotL(a, n)
  {}

  /** `width` bits hold a number but for a multiple of 2^width. */
  lemma {:induction false} NumberOfBits(n: nat, width: nat) returns (q: nat)
    ensures n == Number(FromNat(n, width)) + q * Pow2(width)
  {
    if width == 0 {
      q := n;
    } else {
      q := NumberOfBits(n / 2, width - 1);
      assert FromNat(n, width)[1..] == FromNat(n / 2, width - 1);
      Twice(q, Pow2(width - 1));
    }
  }

  lemma Twice(q: nat, p: nat)
    ensures q * (2 * p) == 2 * (q * p)
  {}

  lemma {:induction false} BitsOfSum(n: nat, q: nat, width: nat)
    ensures FromNat(n + q * Pow2(width), width) == FromNat(n, width)
  {
    hide FromNat, Pow2;
    FirstBit(n, width);
    if width > 0 {
      var p := Pow2(width - 1);
      Pow2Next(width - 1);
      Twice(q, p);
      FirstBit(n + q * Pow2(width), width);
      BitsOfSum(n / 2, q, width - 1);
      Quotient(n + 2 * (q * p), 2, n / 2 + q * p, n % 2);
    } else {
      FirstBit(n + q * Pow2(width), width);
    }
  }

  lemma FirstBit(n: nat, width: nat)
    ensures FromNat(n, width) == if width == 0 then [] else [n % 2 == 1] + FromNat(n / 2, width - 1)
  {}

  /** The low octet, and the rest. */
  lemma LowEight(n: nat, width: nat)
    requires width >= 8
    ensures FromNat(n, width) == FromNat(n, 8) + FromNat(n / 0x100, width - 8)
  {
    hide FromNat;
    FourBits(n, width);
    FourBits(n / 16, width - 4);
    FourBits(n, 8);
    FourBits(n / 16, 4);
    FirstBit(n / 16 / 16, 0);
    Twofold(n, 16, 16);
    InTwo(Four(n), Four(n / 16), FromNat(n / 0x100, width - 8));
  }

  lemma InTwo(a: seq<bool>, b: seq<bool>, rest: seq<bool>)
    ensures a + (b + rest) == (a + (b + [])) + rest
  {}

  function Four(n: nat): (r: seq<bool>) { [n % 2 == 1, n / 2 % 2 == 1, n / 4 % 2 == 1, n / 8 % 2 == 1] }

  lemma FourBits(n: nat, width: nat)
    requires width >= 4
    ensures FromNat(n, width) == Four(n) + FromNat(n / 16, width - 4)
  {
    hide FromNat;
    FirstBit(n, width);
    FirstBit(n / 2, width - 1);
    FirstBit(n / 4, width - 2);
    FirstBit(n / 8, width - 3);
    Twofold(n, 2, 2);
    Twofold(n, 4, 2);
    Twofold(n, 8, 2);
    InARow(n % 2 == 1, n / 2 % 2 == 1, n / 4 % 2 == 1, n / 8 % 2 == 1, FromNat(n / 16, width - 4));
  }

  lemma InARow(a: bool, b: bool, c: bool, d: bool, rest: seq<bool>)
    ensures [a] + ([b] + ([c] + ([d] + rest))) == [a, b, c, d] + rest
  {}

  lemma AddAssoc(a: Word, b: Word, c: Word)
    ensures Add(Add(a, b), c) == Add(a, Add(b, c))
  {
    hide FromNat, Number, Pow2;
    var x, y, z := Number(a), Number(b), Number(c);
    var q := NumberOfBits(x + y, 32);
    BitsOfSum(Number(Add(a, b)) + z, q, 32);
    var q' := NumberOfBits(y + z, 32);
    BitsOfSum(x + Number(Add(b, c)), q', 32);
  }

  lemma AddComm(a: Word, b: Word)
    ensures Add(a, b) == Add(b, a)
  {}

  // ----- bytes ----------------------------------------------------------------------------

  function Octet0(w: Word, k: nat): (r: Octet)
    requires k < 4
  {
    w[8 * k..8 * k + 8]
  }

  /** `PUT_UINT32` on a big-endian byte string, and its little-endian counterpart. */
  function StoreBig(w: Word): (r: seq<Octet>)
    ensures |r| == 4 && LoadBig(r) == w
  {
    [Octet0(w, 3), Octet0(w, 2), Octet0(w, 1), Octet0(w, 0)]
  }

  function StoreLittle(w: Word): (r: seq<Octet>)
    ensures |r| == 4 && LoadLittle(r) == w
  {
    [Octet0(w, 0), Octet0(w, 1), Octet0(w, 2), Octet0(w, 3)]
  }
}
