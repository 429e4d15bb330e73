/** `crc32_combine_`: GF(2) matrices as zero-bit operators, squared in place. */
module Crc32Combine {
  import opened Bits
  import opened Crc
  import opened Crc32

  const GF2_DIM := 32

  /** The word with bit `i` alone. */
  function Unit(i: nat): (r: Word) { seq(32, j requires 0 <= j < 32 => j == i) }

  function Row(on: bool, row: Word): (r: Word) { if on then row else ZERO }

  /** The sum of the rows that bits `i` and up of the vector select. */
  function Times(mat: seq<Word>, v: Word, i: nat): (r: Word)
    requires |mat| == GF2_DIM && i <= GF2_DIM
    decreases GF2_DIM - i
  {
    if i == GF2_DIM then ZERO else Xor(Row(v[i], mat[i]), Times(mat, v, i + 1))
  }

  /** `mat` is the operator that moves a register over `n` zero bits: row `i` is where the
      operator takes bit `i`. */
  ghost predicate Moves(mat: seq<Word>, p: Word, n: nat) {
    |mat| == GF2_DIM && forall i :: 0 <= i < GF2_DIM ==> mat[i] == Steps(p, n, Unit(i))
  }

  function From(v: Word, i: nat): (r: Word) { seq(32, j requires 0 <= j < 32 => j >= i && v[j]) }

  /** Linearity: the rows determine the operator on every vector. */
  lemma {:induction false} TimesIsSteps(mat: seq<Word>, p: Word, n: nat, v: Word, i: nat)
    requires Moves(mat, p, n) && i <= GF2_DIM
    ensures Times(mat, v, i) == Steps(p, n, From(v, i))
    decreases GF2_DIM - i
  {
    if i == GF2_DIM {
      assert From(v, i) == ZERO;
      StepsZero(p, n);
    } else {
      TimesIsSteps(mat, p, n, v, i + 1);
      StepsZero(p, n);
      assert From(v, i) == Xor(Row(v[i], Unit(i)), From(v, i + 1));
      hide Xor, Unit, From, Steps;
      StepsLinear(p, n, Row(v[i], Unit(i)), From(v, i + 1));
    }
  }

  lemma TimesMoves(mat: seq<Word>, p: Word, n: nat, v: Word)
    requires Moves(mat, p, n)
    ensures Times(mat, v, 0) == Steps(p, n, v)
  {
    hide Times, Steps, Moves;
    TimesIsSteps(mat, p, n, v, 0);
    assert From(v, 0) == v;
  }

  lemma {:induction false} TimesZero(mat: seq<Word>, v: Word, i: nat)
    requires |mat| == GF2_DIM && i <= GF2_DIM && forall j :: i <= j < GF2_DIM ==> !v[j]
    ensures Times(mat, v, i) == ZERO
    decreases GF2_DIM - i
  {
    if i < GF2_DIM { TimesZero(mat, v, i + 1); }
  }

  /** `gf2_matrix_times`: it stops as soon as no bits are left. */
  method Gf2MatrixTimes(mat: array<Word>, vector: Word) returns (sum: Word)
    requires mat.Length == GF2_DIM
    ensures sum == Times(mat[..], vector, 0)
  {
    hide Xor, Times, Shr, Row;
    sum := ZERO;
    var vec, k := vector, 0;
    XorCancel(Times(mat[..], vector, 0), ZERO);
    ShiftNothing(vector);
    while vec != ZERO
      invariant k <= GF2_DIM && vec == Shr(vector, k)
      invariant Xor(sum, Times(mat[..], vector, k)) == Times(mat[..], vector, 0)
      decreases GF2_DIM - k
    {
      ShiftedOut(vector, k);
      TimesNext(mat[..], vector, k, sum);
      if vec[0] { sum := Xor(sum, mat[k]); }
      ShrShr(vector, k, 1);
      vec, k := Shr(vec, 1), k + 1;
    }
    NoBitsLeft(vector, k);
    TimesZero(mat[..], vector, k);
    XorCancel(sum, ZERO);
  }

  lemma TimesNext(mat: seq<Word>, v: Word, k: nat, sum: Word)
    requires |mat| == GF2_DIM && k < GF2_DIM
    ensures Xor(sum, Times(mat, v, k)) == Xor(if v[k] then Xor(sum, mat[k]) else sum, Times(mat, v, k + 1))
  {
    hide Xor;
    XorAssoc(sum, Row(v[k], mat[k]), Times(mat, v, k + 1));
    XorCancel(sum, ZERO);
  }

  lemma ShiftedOut(v: Word, k: nat)
    ensures if k >= 32 then Shr(v, k) == ZERO else Shr(v, k)[0] == v[k]
  {}

  lemma NoBitsLeft(v: Word, k: nat)
    requires Shr(v, k) == ZERO
    ensures forall j :: k <= j < 32 ==> !v[j]
  {
    forall j | k <= j < 32 ensures !v[j] { assert Shr(v, k)[j - k] == v[j]; }
  }

  lemma ShiftNothing(v: Word)
    ensures Shr(v, 0) == v
  {}

  /** `gf2_matrix_square`: the operator for twice as many zero bits. */
  method Gf2MatrixSquare(square: array<Word>, mat: array<Word>, ghost p: Word, ghost n: nat)
    requires square != mat && square.Length == GF2_DIM && Moves(mat[..], p, n)
    modifies square
    ensures Moves(square[..], p, 2 * n)
  {
    hide Steps, Times, Unit;
    ghost var m := mat[..];
    for i := 0 to GF2_DIM
      invariant mat[..] == m
      invariant forall j :: 0 <= j < i ==> square[j] == Steps(p, 2 * n, Unit(j))
    {
      SquareRow(m, p, n, i);
      square[i] := Gf2MatrixTimes(mat, mat[i]);
    }
  }

  lemma SquareRow(mat: seq<Word>, p: Word, n: nat, i: nat)
    requires Moves(mat, p, n) && i < GF2_DIM
    ensures Times(mat, mat[i], 0) == Steps(p, 2 * n, Unit(i))
  {
    hide Steps, Times;
    TimesMoves(mat, p, n, mat[i]);
    StepsAdd(p, n, n, Unit(i));
  }

  /** One zero bit: bit 0 turns into the polynomial, any other bit moves down. */
  lemma OneBit(p: Word, i: nat)
    requires i < GF2_DIM
    ensures Steps(p, 1, Unit(i)) == if i == 0 then p else Unit(i - 1)
  {
    var u := Unit(i);
    assert Steps(p, 1, u) == Step(p, u);
    if i == 0 { assert Shr(u, 1) == ZERO; XorCancel(p, ZERO); } else { assert Shr(u, 1) == Unit(i - 1); }
  }

  /** One bit of the length: `m` zero bits now, or a doubled weight for the bits above it. */
  lemma LengthBit(p: Word, m: nat, len: nat, c: Word)
    ensures Steps(p, m * len, c)
         == Steps(p, (2 * m) * (len / 2), if len % 2 == 1 then Steps(p, m, c) else c)
  {
    hide Steps;
    if len % 2 == 1 {
      assert m * len == (2 * m) * (len / 2) + m by { assert len == 2 * (len / 2) + 1; }
      StepsAdd(p, (2 * m) * (len / 2), m, c);
    } else {
      assert m * len == (2 * m) * (len / 2) by { assert len == 2 * (len / 2); }
    }
  }

  /** The operator for one zero bit, as `odd` is first filled. */
  method OneZeroBit(odd: array<Word>)
    requires odd.Length == GF2_DIM
    modifies odd
    ensures Moves(odd[..], CRC32_POLY, 1)
  {
    hide Hex, Steps;
    odd[0] := CRC32_POLY;
    OneBit(CRC32_POLY, 0);
    var row := Unit(0);
    for n := 1 to GF2_DIM
      invariant row == Unit(n - 1)
      invariant forall j :: 0 <= j < n ==> odd[j] == Steps(CRC32_POLY, 1, Unit(j))
    {
      OneBit(CRC32_POLY, n);
      odd[n] := row;
      assert Shl(row, 1) == Unit(n);
      row := Shl(row, 1);
    }
  }

  /** What is left of the work: `len` times 2m zero bits. */
  function Moved(p: Word, m: nat, len: nat, c: Word): (r: Word) { Steps(p, (2 * m) * len, c) }

  /** One turn of the loop: square, apply if the low bit of the length is set, drop the bit. */
  method ApplyBit(square: array<Word>, mat: array<Word>, crc: Word, len: nat, ghost p: Word, ghost m: nat)
    returns (c: Word, len2: nat)
    requires square != mat && square.Length == GF2_DIM && Moves(mat[..], p, m)
    modifies square
    ensures Moves(square[..], p, 2 * m) && len2 == len / 2
    ensures Moved(p, 2 * m, len2, c) == Moved(p, m, len, crc)
  {
    hide Steps, Times;
    Gf2MatrixSquare(square, mat, p, m);
    LengthBit(p, 2 * m, len, crc);
    assert 2 * (2 * m) == 4 * m;
    TimesMoves(square[..], p, 2 * m, crc);
    c, len2 := crc, len / 2;
    if len % 2 == 1 { c := Gf2MatrixTimes(square, crc); }
  }

  /** `crc32_combine_`: the two matrices swap roles from one bit of the length to the next. */
  method Crc32Combine(crc1: Word, crc2: Word, len: nat) returns (r: Word)
    ensures r == if len == 0 then crc1 else Xor(Steps(CRC32_POLY, 8 * len, crc1), crc2)
  {
    if len == 0 { return crc1; }
    hide Steps, Xor, Word32, Moves, Moved;
    ghost var p := CRC32_POLY;
    var even, odd := new Word[GF2_DIM], new Word[GF2_DIM];
    OneZeroBit(odd);
    MovesLength(odd[..], p, 1);
    Gf2MatrixSquare(even, odd, p, 1);
    Gf2MatrixSquare(odd, even, p, 2);
    var c, len2: nat := crc1, len;
    ghost var m: nat := 4;
    while true
      invariant len2 > 0 && Moves(odd[..], p, m)
      invariant Moved(p, m, len2, c) == Moved(p, 4, len, crc1)
      decreases len2
    {
      c, len2 := ApplyBit(even, odd, c, len2, p, m);
      m := 2 * m;
      if len2 == 0 { NothingLeft(p, m, c); break; }
      c, len2 := ApplyBit(odd, even, c, len2, p, m);
      m := 2 * m;
      if len2 == 0 { NothingLeft(p, m, c); break; }
    }
    AllOfIt(p, len, crc1);
    r := Xor(c, crc2);
  }

  lemma AllOfIt(p: Word, len: nat, c: Word)
    ensures Moved(p, 4, len, c) == Steps(p, 8 * len, c)
  {}

  lemma MovesLength(mat: seq<Word>, p: Word, n: nat)
    requires Moves(mat, p, n)
    ensures |mat| == GF2_DIM
  {}

  lemma NothingLeft(p: Word, m: nat, c: Word)
    ensures Moved(p, m, 0, c) == c
  {}

  /** Combining the checksums of two parts is the checksum of the whole, whatever the start. */
  method CombineParts(ghost sum: Word, ghost a: seq<Octet>, ghost b: seq<Octet>, crc1: Word, crc2: Word, len: nat)
    returns (r: Word)
    requires crc1 == Checksum(CRC32_POLY, sum, a) && crc2 == Checksum(CRC32_POLY, ZERO, b) && len == |b|
    ensures r == Checksum(CRC32_POLY, sum, a + b)
  {
    hide Checksum, Steps, Xor, Word32;
    r := Crc32Combine(crc1, crc2, len);
    ChecksumCombines(CRC32_POLY, sum, a, b);
    if len == 0 { assert a + b == a; }
  }
}
