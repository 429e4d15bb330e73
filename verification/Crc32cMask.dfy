/** `CRC32C_Mask` and `CRC32C_Unmask`: a rotation and an offset, for checksums stored inside data
    that is checksummed itself. */
module Crc32cMask {
  import opened Arithmetic
  import opened Bits
  import opened Words

  const DELTA: Word := Hex(0xa282ead8)

  /** Subtraction modulo 2^32. */
  function Subtract(a: Word, b: Word): (r: Word) {
    NumberSmall(b, 32);
    FromNat(Number(a) + Pow2(32) - Number(b), 32)
  }

  function Mask(crc: Word): (r: Word) { Add(Or(Shr(crc, 15), Shl(crc, 17)), DELTA) }

  function Unmask(masked: Word): (r: Word) {
    var rot := Subtract(masked, DELTA);
    Or(Shr(rot, 17), Shl(rot, 15))
  }

  lemma {:induction false} NumberSmall(w: seq<bool>, n: nat)
    requires |w| <= n
    ensures Number(w) < Pow2(n)
  {
    if w != [] { NumberSmall(w[1..], n - 1); }
  }

  lemma {:induction false} BitsBack(w: seq<bool>)
    ensures FromNat(Number(w), |w|) == w
  {
    if w != [] {
      BitsBack(w[1..]);
      var rest := Number(w[1..]);
      assert (2 * rest + 1) / 2 == rest && 2 * rest / 2 == rest;
    }
  }

  lemma SubtractAdd(a: Word, b: Word)
    ensures Subtract(Add(a, b), b) == a && Add(Subtract(a, b), b) == a
  {
    hide FromNat, Number, Pow2;
    var x, y, p := Number(a), Number(b), Pow2(32);
    NumberSmall(a, 32);
    NumberSmall(b, 32);
    BitsBack(a);
    var q := NumberOfBits(x + y, 32);
    NumberSmall(Add(a, b), 32);
    AtMostOne(q, p, x + y, Number(Add(a, b)));
    if q == 0 { BitsOfSum(x, 1, 32); }
    var q' := NumberOfBits(x + p - y, 32);
    NumberSmall(Subtract(a, b), 32);
    AtMostOne(q', p, x + p - y, Number(Subtract(a, b)));
    if q' == 0 { BitsOfSum(x, 1, 32); }
  }

  lemma AtMostOne(q: nat, p: nat, sum: nat, rest: nat)
    requires sum == rest + q * p && sum < 2 * p && rest < p
    ensures (q == 0 || q == 1) && q * p == if q == 0 then 0 else p
  {
    TwiceAtLeast(q, p);
  }

  lemma TwiceAtLeast(q: nat, p: nat)
    ensures q >= 2 ==> q * p >= 2 * p
  {}

  /** Unmasking undoes masking, and masking unmasking. */
  lemma MaskRoundTrip(w: Word)
    ensures Unmask(Mask(w)) == w && Mask(Unmask(w)) == w
  {
    hide Add, Subtract, Or, Shr, Shl, RotR;
    SubtractAdd(RotR(w, 15), DELTA);
    SubtractAdd(w, DELTA);
    ShiftsRotate(w, 15);
    var rot := Subtract(w, DELTA);
    ShiftsRotate(RotR(w, 15), 17);
    ShiftsRotate(rot, 17);
    ShiftsRotate(RotR(rot, 17), 15);
    FullTurn(w, 15);
    FullTurn(rot, 17);
  }

  lemma FullTurn(w: Word, n: nat)
    requires n <= 32
    ensures RotR(RotR(w, n), 32 - n) == w
  {
    forall i | 0 <= i < 32 ensures RotR(RotR(w, n), 32 - n)[i] == w[i] {
      var turn := if i < n then 0 else 1;
      var j := i + 32 - n - 32 * turn;
      Quotient(i + (32 - n), 32, turn, j);
      Quotient(j + n, 32, 1 - turn, i);
      RotRAt(RotR(w, n), 32 - n, i);
      RotRAt(w, n, j);
    }
  }

  lemma RotRAt(w: Word, n: nat, i: nat)
    requires i < 32
    ensures RotR(w, n)[i] == w[(i + n) % 32]
  {}
}
