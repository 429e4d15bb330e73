/** `SL_Crypto_Adler32`: Adler-32 (section 8.2 of RFC 1950) with the modulo deferred over many
    bytes, its forms without division, and `combine`. */
module Adler32 {
  import opened Arithmetic
  import opened ThriftTypes

  const BASE := 65521
  const NMAX := 5552

  /** The two sums, kept below BASE. */
  datatype Sums = Sums(a: nat, b: nat)

  predicate Reduced(s: Sums) { s.a < BASE && s.b < BASE }

  /** The definition: both sums are reduced at every byte. */
  function Checksum(s: Sums, data: seq<byte>): (r: Sums)
    requires Reduced(s)
    ensures Reduced(r)
  {
    if data == [] then s
    else
      var t := Checksum(s, data[..|data| - 1]);
      var a := M(t.a + data[|data| - 1]);
      Sums(a, M(t.b + a))
  }

  lemma {:induction false} ChecksumConcat(s: Sums, x: seq<byte>, y: seq<byte>)
    requires Reduced(s)
    ensures Checksum(s, x + y) == Checksum(Checksum(s, x), y)
  {
    if y == [] {
      assert x + y == x;
    } else {
      ChecksumConcat(s, x, y[..|y| - 1]);
      assert (x + y)[..|x + y| - 1] == x + y[..|y| - 1];
    }
  }

  function Pack(s: Sums): (n: nat) { s.a + 0x1_0000 * s.b }

  function Unpack(n: u32): (s: Sums) { Sums(n % 0x1_0000, n / 0x1_0000 % 0x1_0000) }

  lemma UnpackPack(s: Sums)
    requires Reduced(s)
    ensures Pack(s) < TWO_32 && Unpack(Pack(s)) == s
  {}

  // ----- arithmetic modulo BASE -----------------------------------------------------------

  function M(x: int): (r: nat)
    ensures r < BASE
  {
    x % BASE
  }

  lemma MMultiple(x: int, k: int)
    ensures M(x + BASE * k) == M(x)
  {}

  lemma MAdd(x: int, y: int)
    ensures M(M(x) + y) == M(x + y) && M(y + M(x)) == M(x + y) && M(y - M(x)) == M(y - x)
  {
    hide M;
    MMultiple(M(x) + y, x / BASE);
    MMultiple(y - x, x / BASE);
    MIs(x);
  }

  lemma MIs(x: int)
    ensures x == M(x) + BASE * (x / BASE)
  {}

  // ----- reduction without division -------------------------------------------------------

  /** `CHOP`: 65536 is 15 modulo BASE. */
  function Chop(a: nat): (r: nat)
    ensures r % BASE == a % BASE && r <= 0xffff + 15 * (a / 0x1_0000)
  {
    var tmp := a / 0x1_0000;
    Congruent(a % 0x1_0000 + 15 * tmp, tmp);
    a % 0x1_0000 + (16 * tmp - tmp)
  }

  /** `MOD28` of the forms without division is the remainder below 2^28. */
  function Mod28(a: nat): (r: nat)
    ensures a < 0x1000_0000 ==> r == a % BASE
  {
    var c := Chop(a);
    if c >= BASE then c - BASE else c
  }

  /** `MOD` is the remainder for every 32-bit number. */
  function Mod(a: nat): (r: nat)
    ensures a < TWO_32 ==> r == a % BASE
  {
    Mod28(Chop(a))
  }

  /** 2^32 is 225 modulo BASE. */
  lemma HighHalf(a: nat)
    ensures (a % TWO_32 + 225 * (a / TWO_32)) % BASE == a % BASE
  {
    var tmp := a / TWO_32;
    assert a == a % TWO_32 + 225 * tmp + BASE * (65551 * tmp);
    hide *;
    Congruent(a % TWO_32 + 225 * tmp, 65551 * tmp);
  }

  lemma Congruent(x: nat, k: nat)
    ensures (x + BASE * k) % BASE == x % BASE
  {
    Quotient(x + BASE * k, BASE, x / BASE + k, x % BASE);
  }

  /** `MOD63` is the remainder for every 64-bit number, and no step of it overflows. */
  function Mod63(a: u64): (r: nat)
    ensures r == a % BASE
  {
    var d := Chop(Chop(HalvesAdded(a)));
    ChopTwice(HalvesAdded(a));
    OneLess(d);
    if d >= BASE then d - BASE else d
  }

  /** The low half, and 225 times the high one. */
  function HalvesAdded(a: u64): (r: u64)
    ensures r % BASE == a % BASE && r < 226 * TWO_32
  {
    var tmp := a / TWO_32;
    HighHalf(a);
    a % TWO_32 + (256 * tmp - 32 * tmp + tmp)
  }

  lemma ChopTwice(a: nat)
    requires a < 226 * TWO_32
    ensures Chop(Chop(a)) < 2 * BASE && Chop(Chop(a)) % BASE == a % BASE
  {
    hide Chop;
    assert a / 0x1_0000 < 226 * 0x1_0000;
    var b := Chop(a);
    assert b / 0x1_0000 < 3500;
  }

  lemma OneLess(d: nat)
    requires d < 2 * BASE
    ensures d % BASE == if d >= BASE then d - BASE else d
  {
    if d >= BASE { Quotient(d, BASE, 1, d - BASE); } else { Quotient(d, BASE, 0, d); }
  }

  // ----- the deferred sums ----------------------------------------------------------------

  /** The sums with no reduction at all. */
  function Raw(s: Sums, data: seq<byte>): (r: Sums) {
    if data == [] then s
    else
      var t := Raw(s, data[..|data| - 1]);
      Sums(t.a + data[|data| - 1], t.b + t.a + data[|data| - 1])
  }

  function Reduce(s: Sums): (r: Sums)
    ensures Reduced(r) && (Reduced(s) ==> r == s)
  {
    Sums(M(s.a), M(s.b))
  }

  /** One reduction at the end does the work of all the others. */
  lemma {:induction false} RawIsChecksum(s: Sums, data: seq<byte>)
    ensures Checksum(Reduce(s), data) == Reduce(Raw(s, data))
  {
    hide M;
    if data != [] {
      RawIsChecksum(s, data[..|data| - 1]);
      var raw, x := Raw(s, data[..|data| - 1]), data[|data| - 1] as int;
      MAdd(raw.a, x);
      MAdd(raw.b, M(raw.a + x));
      MAdd(raw.a + x, raw.b);
    }
  }

  /** How large the second sum can get in `n` bytes, from sums of at most `h`. */
  function Largest(n: nat, h: nat): (m: nat) { if n == 0 then h else Largest(n - 1, h) + h + 255 * n }

  lemma {:induction false} LargestIs(n: nat, h: nat)
    ensures 2 * Largest(n, h) == 2 * (n + 1) * h + 255 * n * (n + 1)
  {
    if n > 0 {
      LargestIs(n - 1, h);
      Expanded(n, h);
    }
  }

  lemma Expanded(n: nat, h: nat)
    ensures 2 * (n + 1) * h == 2 * n * h + 2 * h && 255 * n * (n + 1) == 255 * (n - 1) * n + 510 * n
  {}

  lemma {:induction false} LargestGrows(m: nat, n: nat, h: nat)
    requires m <= n
    ensures Largest(m, h) <= Largest(n, h)
  {
    if m < n { LargestGrows(m, n - 1, h); }
  }

  /** Sixteen bits each, as a start value holds them. */
  predicate Halves(s: Sums) { s.a <= 0xffff && s.b <= 0xffff }

  lemma {:induction false} RawBound(s: Sums, data: seq<byte>)
    requires Halves(s)
    ensures Raw(s, data).a <= 0xffff + 255 * |data| && Raw(s, data).b <= Largest(|data|, 0xffff)
  {
    if data != [] { RawBound(s, data[..|data| - 1]); }
  }

  /** Within NMAX bytes neither sum leaves 32 bits, even from sums that are not reduced. */
  lemma NoOverflow(s: Sums, data: seq<byte>)
    requires Halves(s) && |data| <= NMAX
    ensures Raw(s, data).a < TWO_32 && Raw(s, data).b < TWO_32
  {
    RawBound(s, data);
    LargestIs(NMAX, 0xffff);
    LargestGrows(|data|, NMAX, 0xffff);
  }

  /** One byte more and the second sum can leave them, even from reduced sums. */
  lemma NMaxIsLargest()
    ensures Largest(NMAX, 0xffff) < TWO_32 <= Largest(NMAX + 1, BASE - 1)
  {
    LargestIs(NMAX, 0xffff);
    LargestIs(NMAX + 1, BASE - 1);
  }

  // ----- the loops ------------------------------------------------------------------------

  /** One `DO1`, or one turn of the byte loops, in 32-bit arithmetic. */
  function Do1(sum: u32, sum2: u32, x: byte): (r: (u32, u32)) {
    var a := (sum + x) % TWO_32;
    (a, (sum2 + a) % TWO_32)
  }

  lemma RawNext(s: Sums, data: seq<byte>, from: nat, i: nat)
    requires from <= i < |data| && i - from < NMAX && Halves(s)
    ensures var t, x := Raw(s, data[from..i]), data[i];
            Raw(s, data[from..i + 1]) == Sums(t.a + x, t.b + t.a + x) && t.a + x < TWO_32 && t.b + t.a + x < TWO_32
  {
    assert data[from..i + 1][..i - from] == data[from..i];
    NoOverflow(s, data[from..i + 1]);
  }

  /** Adding the next bytes of a run of at most NMAX keeps the sums exact. */
  method AddBytes(data: seq<byte>, from: nat, i: nat, n: nat, ghost s: Sums, sum0: u32, sum20: u32)
    returns (sum: u32, sum2: u32)
    requires from <= i && i + n <= |data| && i + n - from <= NMAX && Halves(s)
    requires Raw(s, data[from..i]) == Sums(sum0, sum20)
    ensures Raw(s, data[from..i + n]) == Sums(sum, sum2)
  {
    hide Raw;
    sum, sum2 := sum0, sum20;
    for k := 0 to n
      invariant Raw(s, data[from..i + k]) == Sums(sum, sum2)
    {
      RawNext(s, data, from, i + k);
      var r := Do1(sum, sum2, data[i + k]);
      sum, sum2 := r.0, r.1;
    }
  }

  /** The one input the source leaves unreduced: a single byte that takes the second sum of an
      unreduced start past twice BASE, where one subtraction is not enough. */
  predicate StaysReduced(s: Sums, data: seq<byte>) { |data| == 1 ==> s.b + M(s.a + data[0]) < 2 * BASE }

  /** `checksum`, from any 32-bit start, with and without NO_DIVIDE. */
  method ComputeChecksum(data: seq<byte>, start: u32, noDivide: bool) returns (r: u32)
    ensures r == Pack(Checksum(Reduce(Unpack(start)), data)) <==> StaysReduced(Unpack(start), data)
    ensures |data| == 1 ==> r == Pack(OneStepOf(Unpack(start), data[0]))
  {
    var sum2: u32 := start / 0x1_0000 % 0x1_0000;
    var sum: u32 := start % 0x1_0000;
    var len := |data|;
    hide Checksum, Pack;
    ghost var s := Unpack(start);
    if len == 1 {
      r := OneByte(data, start);
      return;
    }
    if len < 16 {
      r := FewBytes(data, start, noDivide);
      return;
    }
    NoBytes(s, data);
    var p := 0;
    while len >= NMAX
      invariant p + len == |data| && 0 <= len && Halves(Sums(sum, sum2))
      invariant Checksum(Reduce(s), data[..p]) == Reduce(Sums(sum, sum2)) && (p > 0 ==> Reduced(Sums(sum, sum2)))
    {
      len := len - NMAX;
      sum, sum2 := Stretch(data, p, NMAX, s, sum, sum2, noDivide);
      p := p + NMAX;
    }
    if len > 0 {
      sum, sum2 := Stretch(data, p, len, s, sum, sum2, noDivide);
    }
    assert data[..|data|] == data;
    r := PackSums(sum, sum2);
  }

  /** A start of reduced sums, as every checksum is, never runs into the exception. */
  lemma ReducedStays(s: Sums, data: seq<byte>)
    requires Reduced(s)
    ensures StaysReduced(s, data) && Reduce(s) == s
  {}

  /** From 0xfffffff0 a zero byte leaves the second sum at 65534, where the definition has 13. */
  lemma LeftUnreduced()
    ensures var s := Unpack(0xfffffff0);
            && !StaysReduced(s, [0]) && OneStepOf(s, 0) == Sums(65520, 65534)
            && Checksum(Reduce(s), [0]) == Sums(65520, 13)
  {
    var data: seq<byte> := [0];
    assert data[..0] == [];
    assert Checksum(Reduce(Unpack(0xfffffff0)), data[..0]) == Reduce(Unpack(0xfffffff0));
  }

  method PackSums(sum: nat, sum2: nat) returns (r: u32)
    requires sum < BASE && sum2 < BASE
    ensures r == Pack(Sums(sum, sum2))
  {
    r := sum + 0x1_0000 * sum2;
  }

  lemma NoBytes(s: Sums, data: seq<byte>)
    ensures Checksum(Reduce(s), data[..0]) == Reduce(s) && Raw(s, data[..0]) == s
  {
    assert data[..0] == [];
  }

  /** The branch for fewer than sixteen bytes: the first sum needs one subtraction at most. */
  method FewBytes(data: seq<byte>, start: u32, noDivide: bool) returns (r: u32)
    requires |data| < 16
    ensures r == Pack(Checksum(Reduce(Unpack(start)), data))
  {
    hide Checksum, Raw, M, Pack;
    ghost var s := Unpack(start);
    var sum2, sum := start / 0x1_0000 % 0x1_0000, start % 0x1_0000;
    NoBytes(s, data);
    sum, sum2 := AddBytes(data, 0, 0, |data|, s, sum, sum2);
    assert data[0..|data|] == data && data[0..0] == data[..0];
    FewAreSmall(s, data);
    MOnce(sum);
    MOnce(sum2);
    RawIsChecksum(s, data);
    if sum >= BASE { sum := sum - BASE; }
    sum2 := if noDivide then Mod28(sum2) else sum2 % BASE;
    r := PackSums(sum, sum2);
  }

  lemma MOnce(n: nat)
    ensures M(n) == n % BASE && (n < 2 * BASE ==> M(n) == if n >= BASE then n - BASE else n)
    ensures M(n) < BASE
  {}

  lemma FewAreSmall(s: Sums, data: seq<byte>)
    requires Halves(s) && |data| < 16
    ensures var r := Raw(s, data); r.a < 2 * BASE && r.b < 0x1000_0000
  {
    hide Raw, Largest;
    RawBound(s, data);
    LargestIs(15, 0xffff);
    LargestGrows(|data|, 15, 0xffff);
  }

  /** A run of up to NMAX bytes, sixteen at a time and then one by one, with one reduction. */
  method Stretch(data: seq<byte>, p: nat, n: nat, ghost s: Sums, sum0: u32, sum20: u32, noDivide: bool)
    returns (sum: u32, sum2: u32)
    requires p + n <= |data| && n <= NMAX && Halves(Sums(sum0, sum20))
    requires Checksum(Reduce(s), data[..p]) == Reduce(Sums(sum0, sum20))
    ensures Checksum(Reduce(s), data[..p + n]) == Sums(sum, sum2)
  {
    hide Checksum, Raw;
    ghost var t := Sums(sum0, sum20);
    sum, sum2 := sum0, sum20;
    NoBytes(t, data[p..]);
    assert data[p..p] == data[p..][..0];
    var i := p;
    while p + n - i >= 16
      invariant p <= i <= p + n && Raw(t, data[p..i]) == Sums(sum, sum2)
    {
      sum, sum2 := AddBytes(data, p, i, 16, t, sum, sum2);
      i := i + 16;
    }
    sum, sum2 := AddBytes(data, p, i, p + n - i, t, sum, sum2);
    StretchAdds(Reduce(s), t, data, p, n);
    if noDivide {
      sum, sum2 := Mod(sum), Mod(sum2);
    } else {
      sum, sum2 := sum % BASE, sum2 % BASE;
    }
  }

  lemma StretchAdds(s: Sums, t: Sums, data: seq<byte>, p: nat, n: nat)
    requires p + n <= |data| && Reduced(s) && Checksum(s, data[..p]) == Reduce(t)
    ensures Checksum(s, data[..p + n]) == Reduce(Raw(t, data[p..p + n]))
  {
    hide Checksum, Raw, M;
    RawIsChecksum(t, data[p..p + n]);
    ChecksumConcat(s, data[..p], data[p..p + n]);
    assert data[..p + n] == data[..p] + data[p..p + n];
  }

  /** The branch for one byte, which subtracts at most once from each sum. */
  function OneStepOf(s: Sums, x: byte): (r: Sums) {
    var a := Drop(s.a + x, BASE);
    Sums(a, Drop(s.b + a, BASE))
  }

  method OneByte(data: seq<byte>, start: u32) returns (r: u32)
    requires |data| == 1
    ensures r == Pack(OneStepOf(Unpack(start), data[0]))
    ensures r == Pack(Checksum(Reduce(Unpack(start)), data)) <==> StaysReduced(Unpack(start), data)
  {
    hide Checksum, M;
    ghost var s := Unpack(start);
    var sum2, sum := start / 0x1_0000 % 0x1_0000, start % 0x1_0000;
    OneStep(s, data);
    sum := sum + data[0];
    if sum >= BASE { sum := sum - BASE; }
    sum2 := sum2 + sum;
    if sum2 >= BASE { sum2 := sum2 - BASE; }
    r := sum + 0x1_0000 * sum2;
  }

  lemma RawOne(s: Sums, data: seq<byte>)
    requires |data| == 1
    ensures Raw(s, data) == Sums(s.a + data[0], s.b + s.a + data[0])
  {
    assert data[..0] == [];
  }

  lemma OneStep(s: Sums, data: seq<byte>)
    requires Halves(s) && |data| == 1
    ensures var t := Checksum(Reduce(s), data);
            && OneStepOf(s, data[0]).a == t.a == M(s.a + data[0])
            && (OneStepOf(s, data[0]).b == t.b <==> StaysReduced(s, data))
  {
    hide Checksum, M, Raw;
    RawIsChecksum(s, data);
    RawOne(s, data);
    MAdd(s.a + data[0], s.b);
    MOnce(s.a + data[0]);
    MOnce(s.b + M(s.a + data[0]));
  }

  // ----- combine --------------------------------------------------------------------------

  /** `adler32_combine_`, with either form of the reductions. */
  function Combine(adler1: u32, adler2: u32, len2: u64, noDivide: bool): (r: nat) {
    var rem := if noDivide then Mod63(len2) else len2 % BASE;
    Monotone(0, rem, adler1 % 0x1_0000);
    var product := rem * (adler1 % 0x1_0000);
    var sum2 := if noDivide then Mod(product) else product % BASE;
    var sum1 := adler1 % 0x1_0000 + adler2 % 0x1_0000 + BASE - 1;
    var sum2' := sum2 + adler1 / 0x1_0000 % 0x1_0000 + adler2 / 0x1_0000 % 0x1_0000 + BASE - rem;
    Pack(Sums(Drop(Drop(sum1, BASE), BASE), Drop(Drop(sum2', 2 * BASE), BASE)))
  }

  function Drop(n: int, m: nat): (r: int)
    ensures n >= 0 ==> r >= 0
  {
    if n >= m then n - m else n
  }

  /** From another start the sums differ by what the start adds to every one of them. */
  lemma {:induction false} RawFrom(s: Sums, data: seq<byte>)
    ensures Raw(s, data).a == Raw(Sums(1, 0), data).a + s.a - 1
    ensures Raw(s, data).b == Raw(Sums(1, 0), data).b + s.b + |data| * s.a - |data|
  {
    if data != [] {
      RawFrom(s, data[..|data| - 1]);
      assert |data| * s.a == (|data| - 1) * s.a + s.a;
    }
  }

  lemma ProductModulo(n: nat, a: nat)
    ensures M(M(n) * a) == M(n * a)
  {
    hide M;
    MIs(n);
    var q := n / BASE;
    assert n * a == M(n) * a + BASE * (q * a);
    MMultiple(M(n) * a, q * a);
  }

  lemma DropsReduce(n: nat)
    ensures n < 3 * BASE ==> Drop(Drop(n, BASE), BASE) == M(n)
    ensures n < 4 * BASE ==> Drop(Drop(n, 2 * BASE), BASE) == M(n)
  {}

  /** Checksums of two parts, the second begun from 1, combine to that of the whole. */
  lemma CombineIsConcat(x: seq<byte>, y: seq<byte>, s: Sums, noDivide: bool)
    requires Reduced(s) && |y| < TWO_64
    ensures Reduced(Checksum(s, x)) && Reduced(Checksum(Sums(1, 0), y))
    ensures Pack(Checksum(s, x)) < TWO_32 && Pack(Checksum(Sums(1, 0), y)) < TWO_32
    ensures Combine(Pack(Checksum(s, x)), Pack(Checksum(Sums(1, 0), y)), |y|, noDivide) == Pack(Checksum(s, x + y))
  {
    hide Checksum, Raw, M, Pack, Combine, Unpack;
    var t, u, raw := Checksum(s, x), Checksum(Sums(1, 0), y), Raw(Sums(1, 0), y);
    ChecksumConcat(s, x, y);
    RawIsChecksum(t, y);
    RawIsChecksum(Sums(1, 0), y);
    assert Reduce(t) == t && Reduce(Sums(1, 0)) == Sums(1, 0);
    RawFrom(t, y);
    UnpackPack(t);
    UnpackPack(u);
    CombineUnpacked(Pack(t), Pack(u), |y|, noDivide);
    FirstSum(t.a, raw.a);
    SecondSum(t, raw.b, |y|);
  }

  /** `Combine` on the unpacked sums. */
  lemma CombineUnpacked(adler1: u32, adler2: u32, n: u64, noDivide: bool)
    requires Reduced(Unpack(adler1)) && Reduced(Unpack(adler2))
    ensures var t, u := Unpack(adler1), Unpack(adler2);
            Combine(adler1, adler2, n, noDivide)
            == Pack(Sums(M(t.a + u.a + BASE - 1), M(M(M(n) * t.a) + t.b + u.b + BASE - M(n))))
  {
    hide Drop, Mod, Mod63, Pack;
    var t, u := Unpack(adler1), Unpack(adler2);
    var rem := M(n);
    var product := rem * t.a;
    ProductSmall(rem, t.a);
    DropsReduce(t.a + u.a + BASE - 1);
    DropsReduce(M(product) + t.b + u.b + BASE - rem);
  }

  lemma ProductSmall(x: nat, y: nat)
    requires x < BASE && y < BASE
    ensures x * y < TWO_32
  {
    Monotone(x, BASE, y);
  }

  lemma Monotone(x: nat, z: nat, y: nat)
    requires x <= z
    ensures x * y <= z * y
  {}

  lemma FirstSum(a: nat, raw: nat)
    ensures M(a + M(raw) + BASE - 1) == M(raw + a - 1)
  {
    hide M;
    MAdd(raw, a + BASE - 1);
    MMultiple(raw + a - 1, 1);
  }

  lemma SecondSum(t: Sums, raw: nat, n: nat)
    ensures M(M(M(n) * t.a) + t.b + M(raw) + BASE - M(n)) == M(raw + t.b + n * t.a - n)
  {
    hide M;
    var c := t.b + M(raw) + BASE - M(n);
    ProductModulo(n, t.a);
    MAdd(n * t.a, c);
    MAdd(raw, n * t.a + t.b + BASE - M(n));
    MAdd(n, raw + n * t.a + t.b + BASE);
    MMultiple(raw + n * t.a + t.b - n, 1);
  }

  // ----- the class ------------------------------------------------------------------------

  // ----- a known answer -------------------------------------------------------------------

  lemma OneMore(data: seq<byte>, n: nat, x: byte, s: Sums, t: Sums)
    requires n < |data| && data[n] == x && Checksum(Sums(1, 0), data[..n]) == s
    requires t == Sums((s.a + x) % BASE, (s.b + (s.a + x) % BASE) % BASE)
    ensures Checksum(Sums(1, 0), data[..n + 1]) == t
  {
    assert data[..n + 1][..n] == data[..n];
  }

  /** "Wikipedia". */
  lemma ChecksumOfWord()
    ensures Pack(Checksum(Sums(1, 0), [0x57, 0x69, 0x6b, 0x69, 0x70, 0x65, 0x64, 0x69, 0x61])) == 0x11e60398
  {
    hide Checksum;
    var data: seq<byte> := [0x57, 0x69, 0x6b, 0x69, 0x70, 0x65, 0x64, 0x69, 0x61];
    Nothing();
    OneMore(data, 0, 0x57, Sums(1, 0), Sums(88, 88));
    OneMore(data, 1, 0x69, Sums(88, 88), Sums(193, 281));
    OneMore(data, 2, 0x6b, Sums(193, 281), Sums(300, 581));
    OneMore(data, 3, 0x69, Sums(300, 581), Sums(405, 986));
    OneMore(data, 4, 0x70, Sums(405, 986), Sums(517, 1503));
    OneMore(data, 5, 0x65, Sums(517, 1503), Sums(618, 2121));
    OneMore(data, 6, 0x64, Sums(618, 2121), Sums(718, 2839));
    OneMore(data, 7, 0x69, Sums(718, 2839), Sums(823, 3662));
    OneMore(data, 8, 0x61, Sums(823, 3662), Sums(920, 4582));
    assert data[..9] == data;
  }

  lemma Nothing()
    ensures Checksum(Sums(1, 0), []) == Sums(1, 0)
  {}

  /** The class starts from 0, where the standard starts from 1. */
  class SL_Crypto_Adler32 {
    var checksum: u32
    ghost var fed: seq<byte>

    ghost predicate Valid()
      reads this
    {
      Reduced(Unpack(checksum)) && checksum == Pack(Checksum(Sums(0, 0), fed))
    }

    constructor ()
      ensures Valid() && fed == []
    {
      checksum, fed := 0, [];
    }

    method Update(data: seq<byte>, noDivide: bool)
      requires Valid()
      modifies this
      ensures Valid() && fed == old(fed) + data
    {
      UnpackPack(Checksum(Sums(0, 0), fed));
      ReducedStays(Unpack(checksum), data);
      checksum := ComputeChecksum(data, checksum, noDivide);
      ChecksumConcat(Sums(0, 0), fed, data);
      fed := fed + data;
      UnpackPack(Checksum(Sums(0, 0), fed));
    }

    /** `final` gives the checksum of all that was fed, and starts afresh. */
    method Final() returns (r: u32)
      requires Valid()
      modifies this
      ensures Valid() && fed == [] && r == Pack(Checksum(Sums(0, 0), old(fed)))
    {
      r := checksum;
      checksum, fed := 0, [];
    }
  }
}
