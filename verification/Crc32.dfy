/** `SL_Crypto_CRC32` and `SL_Crypto_CRC32C`: the sliced loops, against the bit-serial definition. */
module Crc32 {
  import opened Bits
  import opened Crc

  const CRC32_POLY: Word := Hex(0xedb88320)   // section 8 of RFC 1952
  const CRC32C_POLY: Word := Hex(0x82f63b78)  // section 12.1 of RFC 3720

  // ----- four bytes at a time -------------------------------------------------------------

  /** The four lookups of `DOLIT4` and `STEP4`. */
  function Slice4(p: Word, c: Word): (r: Word) {
    Xor(Xor(Xor(Table(p, 3, Low8(c)), Table(p, 2, Low8(Shr(c, 8)))),
            Table(p, 1, Low8(Shr(c, 16)))), Table(p, 0, Shr(c, 24)))
  }

  function Lit4(p: Word, c: Word, buf: seq<Octet>, i: nat): (r: Word)
    requires i + 4 <= |buf|
  {
    Slice4(p, Xor(c, LoadLittle(buf[i..i + 4])))
  }

  /** A byte in position `k` reaches the bottom of the register after 8k steps. */
  lemma ShiftedBack(n: Word, k: nat)
    requires k < 4 && forall i :: 8 <= i < 32 ==> !n[i]
    ensures Shr(Shl(n, 8 * k), 8 * k) == n
  {}

  lemma ByteAt(p: Word, x: Word, k: nat)
    requires k < 4
    ensures Steps(p, 32, Shl(Low8(Shr(x, 8 * k)), 8 * k)) == Table(p, 3 - k, Low8(Shr(x, 8 * k)))
  {
    var n := Low8(Shr(x, 8 * k));
    var y := Shl(n, 8 * k);
    ZeroSteps(p, 8 * k, y);
    ShiftedBack(n, k);
    hide Xor, Steps;
    StepsAdd(p, 8 * (4 - k), 8 * k, y);
    TableIsSteps(p, 3 - k, n);
  }

  lemma SplitBytes(x: Word)
    ensures Xor(Xor(Xor(Low8(x), Shl(Low8(Shr(x, 8)), 8)), Shl(Low8(Shr(x, 16)), 16)), Shl(Shr(x, 24), 24)) == x
    ensures Low8(Shr(x, 24)) == Shr(x, 24)
    ensures Shl(Low8(Shr(x, 0)), 0) == Low8(x) == Low8(Shr(x, 0))
  {}

  lemma SliceIsSteps(p: Word, x: Word)
    ensures Slice4(p, x) == Steps(p, 32, x)
  {
    SplitBytes(x);
    hide Xor, Steps, Table, Low8, Shr, Shl;
    var a, b, c, d := Low8(x), Shl(Low8(Shr(x, 8)), 8), Shl(Low8(Shr(x, 16)), 16), Shl(Shr(x, 24), 24);
    ByteAt(p, x, 0);
    ByteAt(p, x, 1);
    ByteAt(p, x, 2);
    ByteAt(p, x, 3);
    StepsLinear(p, 32, Xor(Xor(a, b), c), d);
    StepsLinear(p, 32, Xor(a, b), c);
    StepsLinear(p, 32, a, b);
  }

  /** A byte met after 8k steps could have been met at the start, 8k bits further up. */
  lemma Absorb(p: Word, y: Word, b: Octet, k: nat)
    requires k < 4
    ensures Xor(Steps(p, 8 * k, y), ZeroExtend(b)) == Steps(p, 8 * k, Xor(y, Shl(ZeroExtend(b), 8 * k)))
  {
    var z := Shl(ZeroExtend(b), 8 * k);
    ZeroSteps(p, 8 * k, z);
    assert Shr(z, 8 * k) == ZeroExtend(b);
    StepsLinear(p, 8 * k, y, z);
  }

  lemma RunFour(p: Word, c: Word, s: seq<Octet>)
    requires |s| == 4
    ensures Run(p, c, s) == Steps(p, 32, Xor(c, LoadLittle(s)))
  {
    var b0, b1, b2, b3 := ZeroExtend(s[0]), ZeroExtend(s[1]), ZeroExtend(s[2]), ZeroExtend(s[3]);
    var y0 := Xor(c, b0);
    var y1 := Xor(y0, Shl(b1, 8));
    var y2 := Xor(y1, Shl(b2, 16));
    var y3 := Xor(y2, Shl(b3, 24));
    assert y3 == Xor(c, LoadLittle(s));
    assert Steps(p, 0, y0) == y0;
    hide Xor, Steps, Shl;
    Absorb(p, y0, s[1], 1);
    StepsAdd(p, 8, 8, y1);
    Absorb(p, y1, s[2], 2);
    StepsAdd(p, 8, 16, y2);
    Absorb(p, y2, s[3], 3);
    StepsAdd(p, 8, 24, y3);
    RunOne(p, c, s);
    RunOne(p, Steps(p, 8, y0), s[1..]);
    RunOne(p, Steps(p, 16, y1), s[2..]);
    RunOne(p, Steps(p, 24, y2), s[3..]);
    assert s[1..][1..] == s[2..] && s[2..][1..] == s[3..] && s[3..][1..] == [];
    assert Run(p, Steps(p, 32, y3), []) == Steps(p, 32, y3);
  }

  lemma RunOne(p: Word, c: Word, s: seq<Octet>)
    requires s != []
    ensures Run(p, c, s) == Run(p, Steps(p, 8, Xor(c, ZeroExtend(s[0]))), s[1..])
  {}

  /** One word lookup moves four bytes on. */
  lemma LitStep(p: Word, c: Word, buf: seq<Octet>, i: nat)
    requires i + 4 <= |buf|
    ensures Run(p, c, buf[i..]) == Run(p, Lit4(p, c, buf, i), buf[i + 4..])
  {
    hide Run, Slice4, Steps, Xor;
    var s := buf[i..i + 4];
    assert buf[i..] == s + buf[i + 4..];
    RunConcat(p, c, s, buf[i + 4..]);
    RunFour(p, c, s);
    SliceIsSteps(p, Xor(c, LoadLittle(s)));
  }

  /** `c = TABLE[0][(c ^ byte) & 0xff] ^ (c >> 8)`. */
  function LitByte(p: Word, c: Word, b: Octet): (r: Word) {
    Xor(Table(p, 0, Low8(Xor(c, ZeroExtend(b)))), Shr(c, 8))
  }

  lemma ByteStep(p: Word, c: Word, buf: seq<Octet>, i: nat)
    requires i < |buf|
    ensures Run(p, c, buf[i..]) == Run(p, LitByte(p, c, buf[i]), buf[i + 1..])
  {
    hide Steps, Table, Xor;
    ByteByTable(p, c, buf[i]);
    RunOne(p, c, buf[i..]);
    assert buf[i..][1..] == buf[i + 1..];
  }

  /** `crc32_little`: bytes up to a word boundary of the address, 32 bytes at a time, words,
      and the tail. */
  method Crc32Little(crc: Word, buf: seq<Octet>, address: nat) returns (r: Word)
    ensures r == Checksum(CRC32_POLY, crc, buf)
  {
    hide Run, Lit4, LitByte, Hex, Not;
    var p := CRC32_POLY;
    var c, i: nat, len: nat := Not(crc), 0, |buf|;
    while len > 0 && (address + i) % 4 != 0
      invariant i + len == |buf| && Run(p, c, buf[i..]) == Run(p, Not(crc), buf)
    {
      ByteStep(p, c, buf, i);
      c := LitByte(p, c, buf[i]);
      i, len := i + 1, len - 1;
    }
    while len >= 32
      invariant i + len == |buf| && Run(p, c, buf[i..]) == Run(p, Not(crc), buf)
    {
      LitStep(p, c, buf, i);       c := Lit4(p, c, buf, i);
      LitStep(p, c, buf, i + 4);   c := Lit4(p, c, buf, i + 4);
      LitStep(p, c, buf, i + 8);   c := Lit4(p, c, buf, i + 8);
      LitStep(p, c, buf, i + 12);  c := Lit4(p, c, buf, i + 12);
      LitStep(p, c, buf, i + 16);  c := Lit4(p, c, buf, i + 16);
      LitStep(p, c, buf, i + 20);  c := Lit4(p, c, buf, i + 20);
      LitStep(p, c, buf, i + 24);  c := Lit4(p, c, buf, i + 24);
      LitStep(p, c, buf, i + 28);  c := Lit4(p, c, buf, i + 28);
      i, len := i + 32, len - 32;
    }
    while len >= 4
      invariant i + len == |buf| && Run(p, c, buf[i..]) == Run(p, Not(crc), buf)
    {
      LitStep(p, c, buf, i);
      c := Lit4(p, c, buf, i);
      i, len := i + 4, len - 4;
    }
    while len > 0
      invariant i + len == |buf| && Run(p, c, buf[i..]) == Run(p, Not(crc), buf)
    {
      ByteStep(p, c, buf, i);
      c := LitByte(p, c, buf[i]);
      i, len := i + 1, len - 1;
    }
    RunNothing(p, c, buf, i);
    r := Not(c);
  }

  lemma RunNothing(p: Word, c: Word, buf: seq<Octet>, i: nat)
    requires i == |buf|
    ensures Run(p, c, buf[i..]) == c
  {}

  // ----- big-endian machines --------------------------------------------------------------

  /** `DOBIG4` on a register and a word whose bytes are swapped; rows 4 to 7 of the table are
      rows 0 to 3 with their bytes swapped. */
  function Big4(p: Word, c: Word, buf: seq<Octet>, i: nat): (r: Word)
    requires i + 4 <= |buf|
  {
    SliceBig(p, Xor(c, LoadBig(buf[i..i + 4])))
  }

  function SliceBig(p: Word, x: Word): (r: Word) {
    Xor(Xor(Xor(Swap(Table(p, 0, Low8(x))), Swap(Table(p, 1, Low8(Shr(x, 8))))),
            Swap(Table(p, 2, Low8(Shr(x, 16))))), Swap(Table(p, 3, Shr(x, 24))))
  }

  function BigByte(p: Word, c: Word, b: Octet): (r: Word) {
    Xor(Swap(Table(p, 0, Xor(Shr(c, 24), ZeroExtend(b)))), Shl(c, 8))
  }

  lemma SwapLanes(x: Word)
    ensures Low8(Swap(x)) == Shr(x, 24) && Low8(Shr(Swap(x), 8)) == Low8(Shr(x, 16))
    ensures Low8(Shr(Swap(x), 16)) == Low8(Shr(x, 8)) && Shr(Swap(x), 24) == Low8(x)
    ensures Shl(Swap(x), 8) == Swap(Shr(x, 8))
  {
    hide Low8, Swap, Shr, Shl;
    LowLanes(x);
    HighLanes(x);
    SwapShift(x);
  }

  lemma LowLanes(x: Word)
    ensures Low8(Swap(x)) == Shr(x, 24) && Low8(Shr(Swap(x), 8)) == Low8(Shr(x, 16))
  {}

  lemma HighLanes(x: Word)
    ensures Low8(Shr(Swap(x), 16)) == Low8(Shr(x, 8)) && Shr(Swap(x), 24) == Low8(x)
  {}

  lemma SwapShift(x: Word)
    ensures Shl(Swap(x), 8) == Swap(Shr(x, 8))
  {}

  lemma BigIsSwappedSlice(p: Word, x: Word)
    ensures SliceBig(p, Swap(x)) == Swap(Slice4(p, x))
  {
    SwapLanes(x);
    var a, b, c, d := Table(p, 3, Low8(x)), Table(p, 2, Low8(Shr(x, 8))), Table(p, 1, Low8(Shr(x, 16))),
                      Table(p, 0, Shr(x, 24));
    assert Xor(Xor(Xor(d, c), b), a) == Xor(Xor(Xor(a, b), c), d);
    hide Xor, Table, Low8, Shr, Swap;
    SwapXor(d, c);
    SwapXor(Xor(d, c), b);
    SwapXor(Xor(Xor(d, c), b), a);
  }

  lemma BigIsSwapped(p: Word, c: Word, buf: seq<Octet>, i: nat)
    requires i + 4 <= |buf|
    ensures Big4(p, Swap(c), buf, i) == Swap(Lit4(p, c, buf, i))
  {
    hide SliceBig, Slice4, Xor;
    var w := LoadLittle(buf[i..i + 4]);
    assert Swap(w) == LoadBig(buf[i..i + 4]);
    SwapXor(c, w);
    BigIsSwappedSlice(p, Xor(c, w));
  }

  lemma BigByteIsSwapped(p: Word, c: Word, b: Octet)
    ensures BigByte(p, Swap(c), b) == Swap(LitByte(p, c, b))
  {
    SwapLanes(c);
    assert Xor(Low8(c), ZeroExtend(b)) == Low8(Xor(c, ZeroExtend(b)));
    hide Xor, Table, Shr, Shl, Low8, ZeroExtend;
    SwapXor(Table(p, 0, Low8(Xor(c, ZeroExtend(b)))), Shr(c, 8));
  }

  lemma SwapNot(x: Word)
    ensures Swap(Not(x)) == Not(Swap(x))
  {}

  /** `crc32_big` keeps its register byte-swapped and returns the same checksum. */
  method Crc32Big(crc: Word, buf: seq<Octet>, address: nat) returns (r: Word)
    ensures r == Checksum(CRC32_POLY, crc, buf)
  {
    hide Run, Lit4, LitByte, Big4, BigByte, Hex, Swap, Not;
    var p := CRC32_POLY;
    var c, i: nat, len: nat := Not(Swap(crc)), 0, |buf|;
    ghost var g := Not(crc);
    SwapNot(crc);
    while len > 0 && (address + i) % 4 != 0
      invariant i + len == |buf| && c == Swap(g) && Run(p, g, buf[i..]) == Run(p, Not(crc), buf)
    {
      ByteStep(p, g, buf, i);
      BigByteIsSwapped(p, g, buf[i]);
      c, g := BigByte(p, c, buf[i]), LitByte(p, g, buf[i]);
      i, len := i + 1, len - 1;
    }
    while len >= 32
      invariant i + len == |buf| && c == Swap(g) && Run(p, g, buf[i..]) == Run(p, Not(crc), buf)
    {
      BigStep(p, g, buf, i);       c, g := Big4(p, c, buf, i), Lit4(p, g, buf, i);
      BigStep(p, g, buf, i + 4);   c, g := Big4(p, c, buf, i + 4), Lit4(p, g, buf, i + 4);
      BigStep(p, g, buf, i + 8);   c, g := Big4(p, c, buf, i + 8), Lit4(p, g, buf, i + 8);
      BigStep(p, g, buf, i + 12);  c, g := Big4(p, c, buf, i + 12), Lit4(p, g, buf, i + 12);
      BigStep(p, g, buf, i + 16);  c, g := Big4(p, c, buf, i + 16), Lit4(p, g, buf, i + 16);
      BigStep(p, g, buf, i + 20);  c, g := Big4(p, c, buf, i + 20), Lit4(p, g, buf, i + 20);
      BigStep(p, g, buf, i + 24);  c, g := Big4(p, c, buf, i + 24), Lit4(p, g, buf, i + 24);
      BigStep(p, g, buf, i + 28);  c, g := Big4(p, c, buf, i + 28), Lit4(p, g, buf, i + 28);
      i, len := i + 32, len - 32;
    }
    while len >= 4
      invariant i + len == |buf| && c == Swap(g) && Run(p, g, buf[i..]) == Run(p, Not(crc), buf)
    {
      BigStep(p, g, buf, i);
      c, g := Big4(p, c, buf, i), Lit4(p, g, buf, i);
      i, len := i + 4, len - 4;
    }
    while len > 0
      invariant i + len == |buf| && c == Swap(g) && Run(p, g, buf[i..]) == Run(p, Not(crc), buf)
    {
      ByteStep(p, g, buf, i);
      BigByteIsSwapped(p, g, buf[i]);
      c, g := BigByte(p, c, buf[i]), LitByte(p, g, buf[i]);
      i, len := i + 1, len - 1;
    }
    RunNothing(p, g, buf, i);
    SwapNot(g);
    SwapSwap(Not(g));
    r := Swap(Not(c));
  }

  lemma BigStep(p: Word, g: Word, buf: seq<Octet>, i: nat)
    requires i + 4 <= |buf|
    ensures Run(p, g, buf[i..]) == Run(p, Lit4(p, g, buf, i), buf[i + 4..])
    ensures Big4(p, Swap(g), buf, i) == Swap(Lit4(p, g, buf, i))
  {
    hide Run, Lit4, Big4;
    LitStep(p, g, buf, i);
    BigIsSwapped(p, g, buf, i);
  }

  // ----- CRC-32C --------------------------------------------------------------------------

  /** `SL_Crypto_CRC32C::checksum`: the aligned start may lie past the end of the data, and
      then no byte is taken before the word loops. */
  method Crc32C(data: seq<Octet>, address: nat, sum: Word) returns (r: Word)
    ensures r == Checksum(CRC32C_POLY, sum, data)
  {
    hide Run, Lit4, LitByte, Hex, Not;
    var p := CRC32C_POLY;
    var l, i, e := Not(sum), 0, |data|;
    var x := (address + 3) / 4 * 4 - address;
    if x <= e {
      while i != x
        invariant i <= x && Run(p, l, data[i..]) == Run(p, Not(sum), data)
      {
        ByteStep(p, l, data, i);
        l, i := LitByte(p, l, data[i]), i + 1;
      }
    }
    while e - i >= 16
      invariant i <= e && Run(p, l, data[i..]) == Run(p, Not(sum), data)
    {
      LitStep(p, l, data, i);       l := Lit4(p, l, data, i);
      LitStep(p, l, data, i + 4);   l := Lit4(p, l, data, i + 4);
      LitStep(p, l, data, i + 8);   l := Lit4(p, l, data, i + 8);
      LitStep(p, l, data, i + 12);  l := Lit4(p, l, data, i + 12);
      i := i + 16;
    }
    while e - i >= 4
      invariant i <= e && Run(p, l, data[i..]) == Run(p, Not(sum), data)
    {
      LitStep(p, l, data, i);
      l, i := Lit4(p, l, data, i), i + 4;
    }
    while i != e
      invariant i <= e && Run(p, l, data[i..]) == Run(p, Not(sum), data)
    {
      ByteStep(p, l, data, i);
      l, i := LitByte(p, l, data[i]), i + 1;
    }
    RunNothing(p, l, data, i);
    r := Not(l);
  }
}
