/** `md5.cpp`: streaming MD5 (RFC 1321). */
module Md5 {
  import opened Arithmetic
  import opened Bits
  import opened Words
  import opened BlockHash

  const TWO_64: nat := 0x1_0000_0000_0000_0000

  // ----- the compression function of the standard (section 3.4) ---------------------------

  /** The additive constants, the message word and the rotation of each operation. */
  const T: seq<bv32> := [
    0xd76aa478, 0xe8c7b756, 0x242070db, 0xc1bdceee, 0xf57c0faf, 0x4787c62a, 0xa8304613, 0xfd469501
  ] + [
    0x698098d8, 0x8b44f7af, 0xffff5bb1, 0x895cd7be, 0x6b901122, 0xfd987193, 0xa679438e, 0x49b40821
  ] + [
    0xf61e2562, 0xc040b340, 0x265e5a51, 0xe9b6c7aa, 0xd62f105d, 0x02441453, 0xd8a1e681, 0xe7d3fbc8
  ] + [
    0x21e1cde6, 0xc33707d6, 0xf4d50d87, 0x455a14ed, 0xa9e3e905, 0xfcefa3f8, 0x676f02d9, 0x8d2a4c8a
  ] + [
    0xfffa3942, 0x8771f681, 0x6d9d6122, 0xfde5380c, 0xa4beea44, 0x4bdecfa9, 0xf6bb4b60, 0xbebfbc70
  ] + [
    0x289b7ec6, 0xeaa127fa, 0xd4ef3085, 0x04881d05, 0xd9d4d039, 0xe6db99e5, 0x1fa27cf8, 0xc4ac5665
  ] + [
    0xf4292244, 0x432aff97, 0xab9423a7, 0xfc93a039, 0x655b59c3, 0x8f0ccc92, 0xffeff47d, 0x85845dd1
  ] + [
    0x6fa87e4f, 0xfe2ce6e0, 0xa3014314, 0x4e0811a1, 0xf7537e82, 0xbd3af235, 0x2ad7d2bb, 0xeb86d391
  ]

  type Index = n: nat | n < 16

  const INDEX: seq<Index> :=
    [0, 1, 2, 3, 4, 5, 6, 7] + [8, 9, 10, 11, 12, 13, 14, 15]
    + [1, 6, 11, 0, 5, 10, 15, 4] + [9, 14, 3, 8, 13, 2, 7, 12]
    + [5, 8, 11, 14, 1, 4, 7, 10] + [13, 0, 3, 6, 9, 12, 15, 2]
    + [0, 7, 14, 5, 12, 3, 10, 1] + [8, 15, 6, 13, 4, 11, 2, 9]

  const SHIFT: seq<nat> := [7, 12, 17, 22] + [5, 9, 14, 20] + [4, 11, 16, 23] + [6, 10, 15, 21]

  datatype Regs = Regs(a: Word, b: Word, c: Word, d: Word)

  function Initial(): (r: Regs) {
    Regs(Hex(0x67452301), Hex(0xefcdab89), Hex(0x98badcfe), Hex(0x10325476))
  }

  /** F, G, H and I of the standard, for operation `i`. */
  function Auxiliary(i: nat, x: Word, y: Word, z: Word): (r: Word) {
    if i < 16 then Or(And(x, y), And(Not(x), z))
    else if i < 32 then Or(And(x, z), And(y, Not(z)))
    else if i < 48 then Xor(Xor(x, y), z)
    else Xor(y, Or(x, Not(z)))
  }

  function MessageWord(b: Block, i: nat): (r: Word)
    requires i < 64
  {
    var k: nat := INDEX[i];
    LoadLittle(b[4 * k..4 * k + 4])
  }

  function Constant(i: nat): (r: Word)
    requires i < 64
  {
    Hex(T[i])
  }

  function ShiftBy(i: nat): (n: nat)
    requires i < 64
    ensures 0 < n < 32
  {
    SHIFT[4 * (i / 16) + i % 4]
  }

  /** `a = b + ((a + F(b, c, d) + X[k] + T[i]) <<< s)`, with the registers then renamed. */
  function Operation(r: Regs, x: Word, i: nat): (r': Regs)
    requires i < 64
  {
    var sum := Add(Add(Add(r.a, Auxiliary(i, r.b, r.c, r.d)), x), Constant(i));
    Regs(r.d, Add(r.b, RotL(sum, ShiftBy(i))), r.b, r.c)
  }

  function Operations(r: Regs, b: Block, i: nat): (r': Regs)
    requires i <= 64
  {
    if i == 0 then r else Operation(Operations(r, b, i - 1), MessageWord(b, i - 1), i - 1)
  }

  function Compress(r: Regs, b: Block): (r': Regs) {
    var s := Operations(r, b, 64);
    Regs(Add(s.a, r.a), Add(s.b, r.b), Add(s.c, r.c), Add(s.d, r.d))
  }

  function Octets(bits: seq<bool>): (r: seq<Octet>)
    requires |bits| == 64
    ensures |r| == 8
  {
    [bits[..8], bits[8..16], bits[16..24], bits[24..32], bits[32..40], bits[40..48], bits[48..56], bits[56..]]
  }

  /** The low 64 bits of the length in bits, low-order byte first (section 3.2). */
  function LengthField(n: nat): (r: seq<Octet>)
    ensures |r| == 8
  {
    Octets(FromNat(8 * n, 64))
  }

  /** The bytes that the code shifts out of the counter. */
  function LengthOctets(bytes: nat): (r: seq<Octet>)
    ensures |r| == 8
  {
    [FromNat(bytes, 8), FromNat(bytes / 0x100, 8), FromNat(bytes / 0x1_0000, 8), FromNat(bytes / 0x100_0000, 8),
     FromNat(bytes / 0x1_0000_0000, 8), FromNat(bytes / 0x100_0000_0000, 8),
     FromNat(bytes / 0x1_0000_0000_0000, 8), FromNat(bytes / 0x100_0000_0000_0000, 8)]
  }

  function StoreRegs(r: Regs): (s: seq<Octet>) {
    StoreLittle(r.a) + StoreLittle(r.b) + StoreLittle(r.c) + StoreLittle(r.d)
  }

  function Padded(m: seq<Octet>): (s: seq<Octet>) {
    m + Padding(|m|) + LengthField(|m|)
  }

  /** The digest of the standard, for messages of any length. */
  function Digest(m: seq<Octet>): (s: seq<Octet>) { StoreRegs(Fold(Compress, Initial(), Padded(m))) }

  // ----- the macros -----------------------------------------------------------------------

  function F(x: Word, y: Word, z: Word): (r: Word) { Xor(z, And(x, Xor(y, z))) }
  function G(x: Word, y: Word, z: Word): (r: Word) { Xor(y, And(z, Xor(x, y))) }
  function H(x: Word, y: Word, z: Word): (r: Word) { Xor(Xor(x, y), z) }
  function I(x: Word, y: Word, z: Word): (r: Word) { Xor(y, Or(x, Not(z))) }

  function Macro(i: nat, x: Word, y: Word, z: Word): (r: Word) {
    if i < 16 then F(x, y, z) else if i < 32 then G(x, y, z) else if i < 48 then H(x, y, z) else I(x, y, z)
  }

  lemma MacrosAgree(i: nat, x: Word, y: Word, z: Word)
    ensures Macro(i, x, y, z) == Auxiliary(i, x, y, z)
  {}

  /** `STEP`: the new value of its second argument. */
  function Step(a: Word, b: Word, c: Word, d: Word, x: Word, i: nat): (r: Word)
    requires i < 64
  {
    var sum := Add(a, Add(Add(Macro(i, b, c, d), x), Constant(i)));
    Add(Or(Shl(sum, ShiftBy(i)), Shr(sum, 32 - ShiftBy(i))), b)
  }

  lemma StepIsOperation(r: Regs, block: Block, i: nat, s: Regs)
    requires i < 64 && Operations(r, block, i) == s
    ensures Operations(r, block, i + 1) == Regs(s.d, Step(s.a, s.b, s.c, s.d, MessageWord(block, i), i), s.b, s.c)
  {
    hide Add, Shl, Shr, Or, RotL, Macro, Auxiliary, MessageWord, Constant, ShiftBy;
    var f, x, t := Macro(i, s.b, s.c, s.d), MessageWord(block, i), Constant(i);
    MacrosAgree(i, s.b, s.c, s.d);
    AddAssoc(s.a, f, x);
    AddAssoc(s.a, Add(f, x), t);
    var sum := Add(Add(Add(s.a, f), x), t);
    ShiftsRotate(sum, ShiftBy(i));
    AddComm(s.b, RotL(sum, ShiftBy(i)));
  }

  lemma NoOperations(r: Regs, b: Block)
    ensures Operations(r, b, 0) == r
  {}

  // ----- the context ----------------------------------------------------------------------

  /** The counter of the source holds a length modulo 2^64. */
  predicate CounterOf(bytes: nat, n: nat) { bytes == n % TWO_64 }

  class Context {
    var bytes: nat
    var state: Regs
    const buffer: array<Octet>
    ghost var fed: seq<Octet>

    /** The state is the whole blocks of what was fed, the buffer starts with the rest, and the
        counter has its length modulo 2^64. */
    ghost predicate Valid()
      reads this, buffer
    {
      && CounterOf(bytes, |fed|) && buffer.Length == 64
      && Held(Compress, Initial(), fed, state, buffer[..])
    }

    constructor ()
      ensures Valid() && fed == [] && fresh(buffer)
    {
      bytes, state, fed := 0, Initial(), [];
      buffer := new Octet[64](_ => MARK);
    }

    /** One block of `md5_body`: the sixty-four steps come in groups of four, after which the
        register names are back in place. */
    method Steps(ghost r: Regs, block: Block) returns (s: Regs)
      requires r == state
      ensures s == Operations(r, block, 64)
    {
      hide Operations, Step, MessageWord;
      var a, b, c, d := state.a, state.b, state.c, state.d;
      NoOperations(r, block);
      for q := 0 to 16
        invariant Operations(r, block, 4 * q) == Regs(a, b, c, d)
      {
        StepIsOperation(r, block, 4 * q + 0, Regs(a, b, c, d));
        a := Step(a, b, c, d, MessageWord(block, 4 * q + 0), 4 * q + 0);
        StepIsOperation(r, block, 4 * q + 1, Regs(d, a, b, c));
        d := Step(d, a, b, c, MessageWord(block, 4 * q + 1), 4 * q + 1);
        StepIsOperation(r, block, 4 * q + 2, Regs(c, d, a, b));
        c := Step(c, d, a, b, MessageWord(block, 4 * q + 2), 4 * q + 2);
        StepIsOperation(r, block, 4 * q + 3, Regs(b, c, d, a));
        b := Step(b, c, d, a, MessageWord(block, 4 * q + 3), 4 * q + 3);
      }
      s := Regs(a, b, c, d);
    }

    /** `md5_body`. */
    method Body(data: seq<Octet>)
      requires |data| > 0 && |data| % 64 == 0
      modifies this`state
      ensures state == Fold(Compress, old(state), data)
    {
      hide Operations, Chained, Add;
      var size, p := |data|, 0;
      ChainedNothing(Compress, state, data);
      while size > 0
        invariant p + size == |data| && p % 64 == 0 && size % 64 == 0 && 0 <= size
        invariant state == Chained(Compress, old(state), data, p)
      {
        var block := data[p..p + 64];
        var s := Steps(state, block);
        ChainedNext(Compress, old(state), data, p);
        state := Regs(Add(s.a, state.a), Add(s.b, state.b), Add(s.c, state.c), Add(s.d, state.d));
        p := p + 64;
        size := size - 64;
      }
      ChainedAll(Compress, old(state), data);
    }

    /** `md5_update`. */
    method Update(data: seq<Octet>)
      requires Valid() && |data| < TWO_64
      modifies this, buffer
      ensures Valid() && fed == old(fed) + data
    {
      hide Chained, Compress, Initial, Held, CounterOf;
      var used := bytes % 64;
      LowBits(bytes, |fed|);
      CountOn(bytes, |fed|, |data|);
      bytes := (bytes + |data|) % TWO_64;
      Absorb(fed, data, used);
      fed := fed + data;
    }

    /** What `md5_update` does to the state and the buffer. */
    method Absorb(ghost m: seq<Octet>, data: seq<Octet>, used: nat)
      requires buffer.Length == 64 && used == |m| % 64 && Held(Compress, Initial(), m, state, buffer[..])
      modifies this`state, buffer
      ensures Held(Compress, Initial(), m + data, state, buffer[..])
    {
      hide Chained, Compress, Initial, Held;
      ghost var all, done := m + data, |m| - used;
      HeldPrefix(Compress, Initial(), m, all, state, buffer[..]);
      var at := 0;
      if used > 0 {
        var free := 64 - used;
        Across(m, data, used, if |data| < free then |data| else free);
        if |data| < free {
          FillPart(all, done, used, data);
          return;
        }
        FillBlock(all, done, used, data[..free]);
        BlocksAdd(done, 64);
        done := done + 64;
        at := free;
      }
      Across(m, data, 0, at);
      TakeBlocks(all, done, data, at);
    }

    /** Input that ends before the block in the buffer does. */
    method FillPart(ghost all: seq<Octet>, ghost done: nat, used: nat, data: seq<Octet>)
      requires buffer.Length == 64 && used + |data| < 64 && done % 64 == 0 && done + used + |data| == |all|
      requires state == Chained(Compress, Initial(), all, done) && all[done..] == buffer[..used] + data
      modifies buffer
      ensures Held(Compress, Initial(), all, state, buffer[..])
    {
      hide Chained, Compress, Initial, Held;
      CopyInto(used, data);
      assert buffer[..][..|all| - done] == buffer[..used + |data|];
      HeldNow(Compress, Initial(), all, done, state, buffer[..]);
    }

    /** Input that completes the block in the buffer. */
    method FillBlock(ghost all: seq<Octet>, ghost done: nat, used: nat, data: seq<Octet>)
      requires buffer.Length == 64 && used + |data| == 64 && done % 64 == 0 && done + 64 <= |all|
      requires state == Chained(Compress, Initial(), all, done) && all[done..done + 64] == buffer[..used] + data
      modifies this`state, buffer
      ensures state == Chained(Compress, Initial(), all, done + 64)
    {
      hide Chained, Compress, Initial, Held;
      CopyInto(used, data);
      assert buffer[..64] == buffer[..];
      ChainedMore(Compress, Initial(), all, done, 64);
      Body(buffer[..]);
    }

    /** The whole blocks of the rest of the input, and what remains of it into the buffer. */
    method TakeBlocks(ghost all: seq<Octet>, ghost done0: nat, data: seq<Octet>, at0: nat)
      requires buffer.Length == 64 && done0 % 64 == 0 && at0 <= |data| && done0 <= |all| && all[done0..] == data[at0..]
      requires state == Chained(Compress, Initial(), all, done0)
      modifies this`state, buffer
      ensures Held(Compress, Initial(), all, state, buffer[..])
    {
      hide Chained, Compress, Initial, Held;
      var at, size := at0, |data| - at0;
      ghost var done := done0;
      if size >= 64 {
        var whole := size - size % 64;
        WholeBlocks(size);
        BlocksAdd(done, whole);
        SameTails(all, done, data, at, whole);
        ChainedMore(Compress, Initial(), all, done, whole);
        Body(data[at..at + whole]);
        at, done := at + whole, done + whole;
        size := size % 64;
      }
      CopyInto(0, data[at..]);
      assert buffer[..][..|all| - done] == [] + data[at..] == data[at..];
      HeldNow(Compress, Initial(), all, done, state, buffer[..]);
    }

    /** `memcpy` into the buffer. */
    method CopyInto(at: nat, data: seq<Octet>)
      requires buffer.Length == 64 && at + |data| <= 64
      modifies buffer
      ensures buffer[..at + |data|] == old(buffer[..at]) + data
    {
      for i := 0 to |data|
        invariant buffer[..at + i] == old(buffer[..at]) + data[..i]
      {
        buffer[at + i] := data[i];
        assert data[..i + 1] == data[..i] + [data[i]];
      }
      assert data[..|data|] == data;
    }

    /** `md5_final`: the mark, zeros and the length complete one block or two. */
    method Final() returns (result: seq<Octet>)
      requires Valid()
      modifies this, buffer
      ensures result == Digest(old(fed))
    {
      hide Chained, Compress, Initial, Held, Zeros, LengthField, StoreRegs, Padding, Fold, CounterOf;
      var used := bytes % 64;
      ghost var m, all, done := fed, Padded(fed), |fed| - used;
      LowBits(bytes, |m|);
      PaddedParts(m, used, LengthField(|m|));
      HeldPrefix(Compress, Initial(), m, all, state, buffer[..]);
      SamePart(m, all, done);
      CopyInto(used, [MARK]);
      used := used + 1;
      var free := 64 - used;
      if free < 8 {
        FillBlock(all, done, used, Zeros(free));
        used, free := 0, 64;
        done := done + 64;
        assert buffer[..used] + Zeros(56) == Zeros(56);
      }
      LastBlock(all, done, used, |m|);
      result := StoreRegs(state);
    }

    /** Zeros and the length complete the last block. */
    method LastBlock(ghost all: seq<Octet>, ghost done: nat, used: nat, ghost n: nat)
      requires buffer.Length == 64 && done % 64 == 0 && used <= 56 && done + 64 == |all|
               && CounterOf(bytes, n)
      requires all[done..] == buffer[..used] + Zeros(56 - used) + LengthField(n)
               && state == Chained(Compress, Initial(), all, done)
      modifies this`state, this`bytes, buffer
      ensures state == Fold(Compress, Initial(), all)
    {
      hide Chained, Compress, Initial, Held, Zeros, LengthField, LengthOctets, CounterOf;
      CopyInto(used, Zeros(64 - used - 8));
      ghost var size := bytes;
      bytes := bytes * 8 % TWO_64;
      LengthBytes(n, size);
      CopyInto(56, LengthOctets(bytes));
      assert buffer[..64] == buffer[..] == all[done..done + 64];
      ChainedMore(Compress, Initial(), all, done, 64);
      Body(buffer[..]);
      ChainedAll(Compress, Initial(), all);
    }
  }

  lemma LowBits(bytes: nat, n: nat)
    requires CounterOf(bytes, n)
    ensures bytes % 64 == n % 64
  {
    Quotient(n, 64, n / TWO_64 * 0x400_0000_0000_0000 + bytes / 64, bytes % 64);
  }

  lemma CountOn(bytes: nat, n: nat, k: nat)
    requires CounterOf(bytes, n)
    ensures CounterOf((bytes + k) % TWO_64, n + k)
  {
    Quotient(n + k, TWO_64, n / TWO_64 + (bytes + k) / TWO_64, (bytes + k) % TWO_64);
  }

  lemma SamePart(m: seq<Octet>, all: seq<Octet>, from: nat)
    requires from <= |m| && m <= all
    ensures all[from..|m|] == m[from..]
  {
    assert all[..|m|] == m;
  }

  /** The padded message from its last whole block on; `l` is the length field. */
  lemma PaddedParts(m: seq<Octet>, left: nat, l: seq<Octet>)
    requires left == |m| % 64 && |l| == 8
    ensures var all := m + Padding(|m|) + l;
            && m <= all && |all| == |m| - left + (if left < 56 then 64 else 128)
            && (left < 56 ==> all[|m| - left..] == m[|m| - left..] + [MARK] + Zeros(55 - left) + l)
            && (left >= 56 ==> all[|m| - left..|m| - left + 64] == m[|m| - left..] + [MARK] + Zeros(63 - left))
            && (left >= 56 ==> all[|m| - left + 64..] == Zeros(56) + l)
  {
    hide Zeros;
    if left < 56 {
      OneBlockLeft(m, |m| - left, Zeros(55 - left), l);
    } else {
      ZerosAdd(63 - left, 56);
      TwoBlocksLeft(m, |m| - left, Zeros(63 - left), Zeros(56), l);
    }
  }

  lemma ZerosAdd(a: nat, b: nat)
    ensures Zeros(a + b) == Zeros(a) + Zeros(b)
  {}

  lemma OneBlockLeft(m: seq<Octet>, from: nat, z: seq<Octet>, l: seq<Octet>)
    requires from <= |m|
    ensures (m + ([MARK] + z) + l)[from..] == m[from..] + [MARK] + z + l
  {}

  lemma TwoBlocksLeft(m: seq<Octet>, from: nat, y: seq<Octet>, z: seq<Octet>, l: seq<Octet>)
    requires from <= |m|
    ensures var all, next := m + ([MARK] + (y + z)) + l, |m| + 1 + |y|;
            all[from..next] == m[from..] + [MARK] + y && all[next..] == z + l
  {}

  lemma LengthBytes(n: nat, size: nat)
    requires CounterOf(size, n)
    ensures LengthField(n) == LengthOctets(size * 8 % TWO_64)
  {
    hide FromNat, Octets;
    var bits := size * 8 % TWO_64;
    var q := Wraps(n, size);
    SameBits(8 * n, bits, q);
    EightOctets(bits);
    Pieces(FromNat(bits, 8), FromNat(bits / 0x100, 8), FromNat(bits / 0x1_0000, 8), FromNat(bits / 0x100_0000, 8),
           FromNat(bits / 0x1_0000_0000, 8), FromNat(bits / 0x100_0000_0000, 8),
           FromNat(bits / 0x1_0000_0000_0000, 8), FromNat(bits / 0x100_0000_0000_0000, 8));
  }

  lemma Wraps(n: nat, size: nat) returns (q: nat)
    requires CounterOf(size, n)
    ensures 8 * n == size * 8 % TWO_64 + q * TWO_64
  {
    q := 8 * (n / TWO_64) + size * 8 / TWO_64;
  }

  lemma Pieces(x0: Octet, x1: Octet, x2: Octet, x3: Octet, x4: Octet, x5: Octet, x6: Octet, x7: Octet)
    ensures Octets(x0 + x1 + x2 + x3 + x4 + x5 + x6 + x7) == [x0, x1, x2, x3, x4, x5, x6, x7]
  {
    var all := x0 + x1 + x2 + x3 + x4 + x5 + x6 + x7;
    assert all[..8] == x0 && all[8..16] == x1 && all[16..24] == x2 && all[24..32] == x3;
    assert all[32..40] == x4 && all[40..48] == x5 && all[48..56] == x6 && all[56..] == x7;
  }

  lemma SameBits(n: nat, bits: nat, q: nat)
    requires n == bits + q * TWO_64
    ensures FromNat(n, 64) == FromNat(bits, 64)
  {
    LargePowers();
    BitsOfSum(bits, q, 64);
  }

  lemma EightOctets(n: nat)
    ensures FromNat(n, 64) == FromNat(n, 8) + FromNat(n / 0x100, 8) + FromNat(n / 0x1_0000, 8)
            + FromNat(n / 0x100_0000, 8)
            + FromNat(n / 0x1_0000_0000, 8) + FromNat(n / 0x100_0000_0000, 8)
            + FromNat(n / 0x1_0000_0000_0000, 8) + FromNat(n / 0x100_0000_0000_0000, 8)
  {
    hide FromNat;
    LowFour(n, 64);
    LowFour(n / 0x1_0000_0000, 32);
    Further(n);
    assert FromNat(n / TWO_64, 0) == [];
  }

  lemma Further(n: nat)
    ensures n / 0x100_0000 / 0x100 == n / 0x1_0000_0000
    ensures n / 0x1_0000_0000 / 0x100 == n / 0x100_0000_0000 && n / 0x1_0000_0000 / 0x1_0000 == n / 0x1_0000_0000_0000
    ensures n / 0x1_0000_0000 / 0x100_0000 == n / 0x100_0000_0000_0000
  {
    Twofold(n, 0x100_0000, 0x100);
    Twofold(n, 0x1_0000_0000, 0x100);
    Twofold(n, 0x1_0000_0000, 0x1_0000);
    Twofold(n, 0x1_0000_0000, 0x100_0000);
  }

  lemma LowFour(n: nat, width: nat)
    requires width >= 32
    ensures FromNat(n, width) == FromNat(n, 8) + FromNat(n / 0x100, 8) + FromNat(n / 0x1_0000, 8)
            + FromNat(n / 0x100_0000, 8)
            + FromNat(n / 0x100_0000 / 0x100, width - 32)
  {
    hide FromNat;
    LowEight(n, width);
    Twofold(n, 0x100, 0x100);
    Twofold(n, 0x1_0000, 0x100);
    LowEight(n / 0x100, width - 8);
    LowEight(n / 0x1_0000, width - 16);
    LowEight(n / 0x100_0000, width - 24);
  }

  /** The digest does not depend on how the message is cut into updates. */
  method HashPieces(pieces: seq<seq<Octet>>) returns (result: seq<Octet>)
    requires forall i :: 0 <= i < |pieces| ==> |pieces[i]| < TWO_64
    ensures result == Digest(Joined(pieces, |pieces|))
  {
    hide Digest, Held;
    var ctx := new Context();
    for i := 0 to |pieces|
      invariant ctx.Valid() && fresh(ctx) && fresh(ctx.buffer) && ctx.fed == Joined(pieces, i)
    {
      ctx.Update(pieces[i]);
    }
    result := ctx.Final();
  }
}
