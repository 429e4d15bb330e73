/** Machine words as sequences of bits, least significant bit first. */
module Bits {
  type Word = w: seq<bool> | |w| == 32 witness seq(32, _ => false)
  type Octet = b: seq<bool> | |b| == 8 witness seq(8, _ => false)

  const ZERO: Word := Repeat(false)
  const ONES: Word := Repeat(true)

  function Repeat(b: bool): (r: Word) { seq(32, i requires 0 <= i < 32 => b) }

  /** The word with a given numeric value. */
  function FromNat(n: nat, width: nat): (r: seq<bool>)
    ensures |r| == width
  {
    if width == 0 then [] else [n % 2 == 1] + FromNat(n / 2, width - 1)
  }

  function Word32(n: nat): (r: Word) { FromNat(n, 32) }

  function Low(x: bv32): (r: bool) { x & 1 != 0 }

  function Halved(x: bv32): (r: bv32) { x >> 1 }

  /** The low `n` bits, lowest first. */
  function BitsFrom(x: bv32, n: nat): (r: seq<bool>)
    ensures |r| == n
    decreases n
  {
    if n == 0 then [] else [Low(x)] + BitsFrom(Halved(x), n - 1)
  }

  /** The word that a constant stands for. */
  function Hex(x: bv32): (r: Word) { BitsFrom(x, |ZERO|) }

  function Xor(a: Word, b: Word): (r: Word) { seq(32, i requires 0 <= i < 32 => a[i] != b[i]) }

  function Not(a: Word): (r: Word) { Xor(a, ONES) }

  function Shr(a: Word, n: nat): (r: Word) { seq(32, i requires 0 <= i < 32 => i + n < 32 && a[i + n]) }

  function Shl(a: Word, n: nat): (r: Word) { seq(32, i requires 0 <= i < 32 => i >= n && a[i - n]) }

  /** `a & 0xff`. */
  function Low8(a: Word): (r: Word) { seq(32, i requires 0 <= i < 32 => i < 8 && a[i]) }

  function ZeroExtend(b: Octet): (r: Word) { seq(32, i requires 0 <= i < 32 => i < 8 && b[i]) }

  /** A 4-byte load on a little-endian and on a big-endian machine. */
  function LoadLittle(s: seq<Octet>): (r: Word)
    requires |s| == 4
  {
    seq(32, i requires 0 <= i < 32 => s[i / 8][i % 8])
  }

  function LoadBig(s: seq<Octet>): (r: Word)
    requires |s| == 4
  {
    seq(32, i requires 0 <= i < 32 => s[3 - i / 8][i % 8])
  }

  /** `SWAP32`: the bytes in opposite order. */
  function Swap(a: Word): (r: Word) { seq(32, i requires 0 <= i < 32 => a[(3 - i / 8) * 8 + i % 8]) }

  lemma XorComm(a: Word, b: Word)
    ensures Xor(a, b) == Xor(b, a)
  {}

  lemma XorAssoc(a: Word, b: Word, c: Word)
    ensures Xor(Xor(a, b), c) == Xor(a, Xor(b, c))
  {}

  lemma XorCancel(a: Word, b: Word)
    ensures Xor(Xor(a, b), b) == a && Xor(a, a) == ZERO && Xor(a, ZERO) == a && Xor(ZERO, a) == a
  {}

  lemma XorInterchange(a: Word, b: Word, c: Word, d: Word)
    ensures Xor(Xor(a, b), Xor(c, d)) == Xor(Xor(a, c), Xor(b, d))
  {}

  lemma ShrShr(a: Word, m: nat, n: nat)
    ensures Shr(Shr(a, m), n) == Shr(a, m + n)
  {}

  lemma SwapSwap(a: Word)
    ensures Swap(Swap(a)) == a
  {
    forall i | 0 <= i < 32 ensures Swap(Swap(a))[i] == a[i] {
      var j := (3 - i / 8) * 8 + i % 8;
      assert j / 8 == 3 - i / 8 && j % 8 == i % 8;
    }
  }

  lemma SwapXor(a: Word, b: Word)
    ensures Swap(Xor(a, b)) == Xor(Swap(a), Swap(b))
  {}
}
