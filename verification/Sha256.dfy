/** `sha256.cpp`: streaming SHA-256 (FIPS 180-2). */
module Sha256 {
  import opened Arithmetic
  import opened Bits
  import opened Words
  import opened BlockHash

  // ----- the compression function of the standard (section 6.2.2) -------------------------

  /** The constants of section 4.2.2. */
  const K: seq<bv32> := [
    0x428A2F98, 0x71374491, 0xB5C0FBCF, 0xE9B5DBA5, 0x3956C25B, 0x59F111F1, 0x923F82A4, 0xAB1C5ED5
  ] + [
    0xD807AA98, 0x12835B01, 0x243185BE, 0x550C7DC3, 0x72BE5D74, 0x80DEB1FE, 0x9BDC06A7, 0xC19BF174
  ] + [
    0xE49B69C1, 0xEFBE4786, 0x0FC19DC6, 0x240CA1CC, 0x2DE92C6F, 0x4A7484AA, 0x5CB0A9DC, 0x76F988DA
  ] + [
    0x983E5152, 0xA831C66D, 0xB00327C8, 0xBF597FC7, 0xC6E00BF3, 0xD5A79147, 0x06CA6351, 0x14292967
  ] + [
    0x27B70A85, 0x2E1B2138, 0x4D2C6DFC, 0x53380D13, 0x650A7354, 0x766A0ABB, 0x81C2C92E, 0x92722C85
  ] + [
    0xA2BFE8A1, 0xA81A664B, 0xC24B8B70, 0xC76C51A3, 0xD192E819, 0xD6990624, 0xF40E3585, 0x106AA070
  ] + [
    0x19A4C116, 0x1E376C08, 0x2748774C, 0x34B0BCB5, 0x391C0CB3, 0x4ED8AA4A, 0x5B9CCA4F, 0x682E6FF3
  ] + [
    0x748F82EE, 0x78A5636F, 0x84C87814, 0x8CC70208, 0x90BEFFFA, 0xA4506CEB, 0xBEF9A3F7, 0xC67178F2
  ]

  function Constant(t: nat): (r: Word)
    requires t < 64
  {
    Hex(K[t])
  }

  datatype Regs = Regs(a: Word, b: Word, c: Word, d: Word, e: Word, f: Word, g: Word, h: Word)

  /** The initial value of section 5.3.2. */
  function Initial(): (r: Regs) {
    Regs(Hex(0x6A09E667), Hex(0xBB67AE85), Hex(0x3C6EF372), Hex(0xA54FF53A),
         Hex(0x510E527F), Hex(0x9B05688C), Hex(0x1F83D9AB), Hex(0x5BE0CD19))
  }

  function Ch(x: Word, y: Word, z: Word): (r: Word) { Xor(And(x, y), And(Not(x), z)) }

  function Maj(x: Word, y: Word, z: Word): (r: Word) { Xor(Xor(And(x, y), And(x, z)), And(y, z)) }

  function BigSigma0(x: Word): (r: Word) { Xor(Xor(RotR(x, 2), RotR(x, 13)), RotR(x, 22)) }

  function BigSigma1(x: Word): (r: Word) { Xor(Xor(RotR(x, 6), RotR(x, 11)), RotR(x, 25)) }

  function SmallSigma0(x: Word): (r: Word) { Xor(Xor(RotR(x, 7), RotR(x, 18)), Shr(x, 3)) }

  function SmallSigma1(x: Word): (r: Word) { Xor(Xor(RotR(x, 17), RotR(x, 19)), Shr(x, 10)) }

  /** The message schedule. */
  function Schedule(b: Block, t: nat): (r: Word)
    requires t < 64
  {
    if t < 16 then LoadBig(b[4 * t..4 * t + 4])
    else Add(Add(Add(SmallSigma1(Schedule(b, t - 2)), Schedule(b, t - 7)), SmallSigma0(Schedule(b, t - 15))),
             Schedule(b, t - 16))
  }

  function Round(r: Regs, w: Word, k: Word): (r': Regs) {
    var t1 := Add(Add(Add(Add(r.h, BigSigma1(r.e)), Ch(r.e, r.f, r.g)), k), w);
    var t2 := Add(BigSigma0(r.a), Maj(r.a, r.b, r.c));
    Regs(Add(t1, t2), r.a, r.b, r.c, Add(r.d, t1), r.e, r.f, r.g)
  }

  function Rounds(r: Regs, b: Block, t: nat): (r': Regs)
    requires t <= 64
  {
    if t == 0 then r else Round(Rounds(r, b, t - 1), Schedule(b, t - 1), Constant(t - 1))
  }

  function Compress(r: Regs, b: Block): (r': Regs) {
    var s := Rounds(r, b, 64);
    Regs(Add(r.a, s.a), Add(r.b, s.b), Add(r.c, s.c), Add(r.d, s.d),
         Add(r.e, s.e), Add(r.f, s.f), Add(r.g, s.g), Add(r.h, s.h))
  }

  /** The length of a message of `n` bytes in bits, as eight bytes. */
  function LengthField(n: nat): (r: seq<Octet>)
    ensures |r| == 8
  {
    StoreBig(Word32(8 * n / 0x1_0000_0000)) + StoreBig(Word32(8 * n % 0x1_0000_0000))
  }

  function StoreRegs(r: Regs): (s: seq<Octet>) {
    StoreBig(r.a) + StoreBig(r.b) + StoreBig(r.c) + StoreBig(r.d)
      + StoreBig(r.e) + StoreBig(r.f) + StoreBig(r.g) + StoreBig(r.h)
  }

  /** The digest of the standard, for messages below 2^61 bytes. */
  function Digest(m: seq<Octet>): (s: seq<Octet>) {
    StoreRegs(Fold(Compress, Initial(), m + Padding(|m|) + LengthField(|m|)))
  }

  // ----- the macros -----------------------------------------------------------------------

  function RotrMacro(x: Word, n: nat): (r: Word)
    requires 0 < n < 32
  {
    Or(Shr(x, n), Shl(x, 32 - n))
  }

  function S0(x: Word): (r: Word) { Xor(Xor(RotrMacro(x, 7), RotrMacro(x, 18)), Shr(x, 3)) }
  function S1(x: Word): (r: Word) { Xor(Xor(RotrMacro(x, 17), RotrMacro(x, 19)), Shr(x, 10)) }
  function S2(x: Word): (r: Word) { Xor(Xor(RotrMacro(x, 2), RotrMacro(x, 13)), RotrMacro(x, 22)) }
  function S3(x: Word): (r: Word) { Xor(Xor(RotrMacro(x, 6), RotrMacro(x, 11)), RotrMacro(x, 25)) }
  function F0(x: Word, y: Word, z: Word): (r: Word) { Or(And(x, y), And(z, Or(x, y))) }
  function F1(x: Word, y: Word, z: Word): (r: Word) { Xor(z, And(x, Xor(y, z))) }

  lemma SigmasAgree(x: Word)
    ensures S0(x) == SmallSigma0(x) && S1(x) == SmallSigma1(x) && S2(x) == BigSigma0(x) && S3(x) == BigSigma1(x)
  {
    hide Or, Shr, Shl, RotR, Xor;
    ShiftsRotate(x, 7); ShiftsRotate(x, 18); ShiftsRotate(x, 17); ShiftsRotate(x, 19);
    ShiftsRotate(x, 2); ShiftsRotate(x, 13); ShiftsRotate(x, 22);
    ShiftsRotate(x, 6); ShiftsRotate(x, 11); ShiftsRotate(x, 25);
  }

  lemma ChoicesAgree(x: Word, y: Word, z: Word)
    ensures F0(x, y, z) == Maj(x, y, z) && F1(x, y, z) == Ch(x, y, z)
  {}

  /** `P`: the new values of its fourth and eighth arguments. */
  function P(a: Word, b: Word, c: Word, d: Word, e: Word, f: Word, g: Word, h: Word,
             x: Word, k: Word): (r: (Word, Word)) {
    var temp1 := Add(Add(Add(Add(h, S3(e)), F1(e, f, g)), k), x);
    var temp2 := Add(S2(a), F0(a, b, c));
    (Add(d, temp1), Add(temp1, temp2))
  }

  /** Renaming instead of moving: a `P` is a round. */
  lemma PIsRound(r: Regs, x: Word, k: Word)
    ensures var p := P(r.a, r.b, r.c, r.d, r.e, r.f, r.g, r.h, x, k);
            Round(r, x, k) == Regs(p.1, r.a, r.b, r.c, p.0, r.e, r.f, r.g)
  {
    hide S2, S3, F0, F1, Add, BigSigma0, BigSigma1, Ch, Maj;
    SigmasAgree(r.a);
    SigmasAgree(r.e);
    ChoicesAgree(r.e, r.f, r.g);
    ChoicesAgree(r.a, r.b, r.c);
  }

  lemma NextRound(r: Regs, b: Block, t: nat)
    requires t < 64
    ensures Rounds(r, b, t + 1) == Round(Rounds(r, b, t), Schedule(b, t), Constant(t))
  {
    hide Round, Schedule;
  }

  // ----- the context ----------------------------------------------------------------------

  /** The first `n` words of the schedule, and at least sixteen, are in `w`. */
  ghost predicate Scheduled(w: seq<Word>, b: Block, n: nat) {
    |w| == 64 && forall j :: 0 <= j < 64 && (j < n || j < 16) ==> w[j] == Schedule(b, j)
  }

  class Context {
    var total0: nat
    var total1: nat
    var state: Regs
    const buffer: array<Octet>
    ghost var fed: seq<Octet>

    /** The state is the whole blocks of what was fed, the buffer starts with the rest, and the
        two counters hold its length. */
    ghost predicate Valid()
      reads this, buffer
    {
      && total0 < 0x1_0000_0000 && |fed| == total0 + 0x1_0000_0000 * total1 && buffer.Length == 64
      && Held(Compress, Initial(), fed, state, buffer[..])
    }

    constructor ()
      ensures Valid() && fed == [] && fresh(buffer)
    {
      total0, total1, state, fed := 0, 0, Initial(), [];
      buffer := new Octet[64](_ => MARK);
    }

    /** `W[t]`, which `R(t)` stores before it is used. */
    method ScheduleWord(ghost data: Block, w: array<Word>, t: nat) returns (x: Word)
      requires w.Length == 64 && 16 <= t < 64 && forall j :: 0 <= j < t ==> w[j] == Schedule(data, j)
      modifies w
      ensures x == w[t] && forall j :: 0 <= j <= t ==> w[j] == Schedule(data, j)
    {
      hide S0, S1, Add, SmallSigma0, SmallSigma1, LoadBig;
      SigmasAgree(w[t - 2]);
      SigmasAgree(w[t - 15]);
      x := Add(Add(Add(S1(w[t - 2]), w[t - 7]), S0(w[t - 15])), w[t - 16]);
      w[t] := x;
    }

    /** `W[t]` or `R(t)`. */
    method Line(ghost data: Block, w: array<Word>, t: nat) returns (x: Word)
      requires w.Length == 64 && t < 64 && Scheduled(w[..], data, t)
      modifies w
      ensures x == Schedule(data, t) && Scheduled(w[..], data, t + 1)
    {
      hide Schedule;
      if t < 16 { x := w[t]; } else { x := ScheduleWord(data, w, t); }
    }

    /** Eight lines, each with the registers renamed once more. */
    method EightLines(ghost r: Regs, ghost data: Block, w: array<Word>, i: nat,
                      a0: Word, b0: Word, c0: Word, d0: Word, e0: Word, f0: Word, g0: Word, h0: Word)
      returns (a: Word, b: Word, c: Word, d: Word, e: Word, f: Word, g: Word, h: Word)
      requires w.Length == 64 && i < 8 && Rounds(r, data, 8 * i) == Regs(a0, b0, c0, d0, e0, f0, g0, h0)
      requires Scheduled(w[..], data, 8 * i)
      modifies w
      ensures Rounds(r, data, 8 * i + 8) == Regs(a, b, c, d, e, f, g, h)
      ensures Scheduled(w[..], data, 8 * i + 8)
    {
      hide Schedule, Rounds, P, Word32, Scheduled, Constant;
      a, b, c, d := a0, b0, c0, d0;
      e, f, g, h := e0, f0, g0, h0;
      var x, p;
      x := Line(data, w, 8 * i + 0);
      LineIsRound(r, data, 8 * i + 0, Regs(a, b, c, d, e, f, g, h), x);
      p := P(a, b, c, d, e, f, g, h, x, Constant(8 * i + 0));
      d, h := p.0, p.1;
      x := Line(data, w, 8 * i + 1);
      LineIsRound(r, data, 8 * i + 1, Regs(h, a, b, c, d, e, f, g), x);
      p := P(h, a, b, c, d, e, f, g, x, Constant(8 * i + 1));
      c, g := p.0, p.1;
      x := Line(data, w, 8 * i + 2);
      LineIsRound(r, data, 8 * i + 2, Regs(g, h, a, b, c, d, e, f), x);
      p := P(g, h, a, b, c, d, e, f, x, Constant(8 * i + 2));
      b, f := p.0, p.1;
      x := Line(data, w, 8 * i + 3);
      LineIsRound(r, data, 8 * i + 3, Regs(f, g, h, a, b, c, d, e), x);
      p := P(f, g, h, a, b, c, d, e, x, Constant(8 * i + 3));
      a, e := p.0, p.1;
      x := Line(data, w, 8 * i + 4);
      LineIsRound(r, data, 8 * i + 4, Regs(e, f, g, h, a, b, c, d), x);
      p := P(e, f, g, h, a, b, c, d, x, Constant(8 * i + 4));
      h, d := p.0, p.1;
      x := Line(data, w, 8 * i + 5);
      LineIsRound(r, data, 8 * i + 5, Regs(d, e, f, g, h, a, b, c), x);
      p := P(d, e, f, g, h, a, b, c, x, Constant(8 * i + 5));
      g, c := p.0, p.1;
      x := Line(data, w, 8 * i + 6);
      LineIsRound(r, data, 8 * i + 6, Regs(c, d, e, f, g, h, a, b), x);
      p := P(c, d, e, f, g, h, a, b, x, Constant(8 * i + 6));
      f, b := p.0, p.1;
      x := Line(data, w, 8 * i + 7);
      LineIsRound(r, data, 8 * i + 7, Regs(b, c, d, e, f, g, h, a), x);
      p := P(b, c, d, e, f, g, h, a, x, Constant(8 * i + 7));
      e, a := p.0, p.1;
    }

    /** `sha256_process`: sixteen words are loaded, and the sixty-four lines of `P` come in groups
        of eight, after which the register names are back in place. */
    method Process(data: Block)
      modifies this`state
      ensures state == Compress(old(state), data)
    {
      hide Schedule, Rounds, Round, P, Add, LoadBig;
      var w := new Word[64](_ => ZERO);
      for t := 0 to 16
        invariant state == old(state) && forall j :: 0 <= j < t ==> w[j] == LoadBig(data[4 * j..4 * j + 4])
      {
        w[t] := LoadBig(data[4 * t..4 * t + 4]);
      }
      forall j | 0 <= j < 16 ensures w[j] == Schedule(data, j) { FirstWords(data, j); }
      var a, b, c, d := state.a, state.b, state.c, state.d;
      var e, f, g, h := state.e, state.f, state.g, state.h;
      NoRounds(state, data);
      for i := 0 to 8
        invariant Rounds(old(state), data, 8 * i) == Regs(a, b, c, d, e, f, g, h) && state == old(state)
        invariant Scheduled(w[..], data, 8 * i)
      {
        a, b, c, d, e, f, g, h := EightLines(old(state), data, w, i, a, b, c, d, e, f, g, h);
      }
      state := Regs(Add(state.a, a), Add(state.b, b), Add(state.c, c), Add(state.d, d),
                    Add(state.e, e), Add(state.f, f), Add(state.g, g), Add(state.h, h));
    }

    /** `sha256_update`. */
    method Update(input: seq<Octet>)
      requires Valid() && |input| < 0x1_0000_0000 && |fed| + |input| < 0x1_0000_0000_0000_0000
      modifies this, buffer
      ensures Valid() && fed == old(fed) + input
    {
      hide Chained, Compress, Initial, Held;
      if |input| == 0 {
        assert fed + input == fed;
        return;
      }
      var left := total0 % 64;
      LowBits(total0, total1, |fed|);
      Count(|input|);
      Absorb(fed, input, left);
      fed := fed + input;
    }

    /** What `sha256_update` does to the state and the buffer. */
    method Absorb(ghost m: seq<Octet>, input: seq<Octet>, left0: nat)
      requires buffer.Length == 64 && left0 == |m| % 64 && Held(Compress, Initial(), m, state, buffer[..])
      modifies this`state, buffer
      ensures Held(Compress, Initial(), m + input, state, buffer[..])
    {
      hide Chained, Compress, Initial, Held;
      var left := left0;
      var fill := 64 - left;
      ghost var all, done := m + input, |m| - left;
      HeldPrefix(Compress, Initial(), m, all, state, buffer[..]);
      if left > 0 && |input| >= fill {
        Complete(m, input, left);
        Across(m, input, 0, fill);
        BlocksAdd(done, 64);
        TakeBlocks(all, done + 64, input, fill);
      } else if left == 0 {
        Across(m, input, 0, 0);
        TakeBlocks(all, done, input, 0);
      } else {
        // With bytes left over in the buffer, fewer than a block of input remain.
        Across(m, input, left, |input|);
        Keep(all, done, input, 0, left);
      }
    }

    /** The whole blocks of the rest of the input, and what remains of it into the buffer. */
    method TakeBlocks(ghost all: seq<Octet>, ghost done: nat, input: seq<Octet>, at0: nat)
      requires buffer.Length == 64 && done % 64 == 0 && at0 <= |input| && done <= |all| && all[done..] == input[at0..]
      requires state == Chained(Compress, Initial(), all, done)
      modifies this`state, buffer
      ensures Held(Compress, Initial(), all, state, buffer[..])
    {
      hide Chained, Compress, Initial, Held;
      var at, length := Blocks(all, done, input, at0);
      SameTails(all, done, input, at0, at - at0);
      assert buffer[..0] + input[at..] == input[at..];
      Keep(all, done + at - at0, input, at, 0);
    }

    /** The buffered start of a block and the first bytes of the input. */
    method Complete(ghost m: seq<Octet>, input: seq<Octet>, left: nat)
      requires 0 < left < 64 && left <= |m| && 64 - left <= |input| && (|m| - left) % 64 == 0 && buffer.Length == 64
      requires state == Chained(Compress, Initial(), m + input, |m| - left)
               && buffer[..left] == (m + input)[|m| - left..|m|]
      modifies this`state, buffer
      ensures state == Chained(Compress, Initial(), m + input, |m| - left + 64)
    {
      hide Chained, Compress, Initial;
      CopyInto(left, input[..64 - left]);
      Across(m, input, left, 64 - left);
      assert buffer[..64] == buffer[..];
      ChainedNext(Compress, Initial(), m + input, |m| - left);
      Process(buffer[..]);
    }

    /** What is left of the input stays in the buffer. */
    method Keep(ghost all: seq<Octet>, ghost done: nat, input: seq<Octet>, at: nat, left: nat)
      requires buffer.Length == 64 && done % 64 == 0 && at <= |input| && left + |input| - at < 64
      requires left <= |all| && done + left + |input| - at == |all| && all[done..] == buffer[..left] + input[at..]
      requires state == Chained(Compress, Initial(), all, done)
      modifies buffer
      ensures Held(Compress, Initial(), all, state, buffer[..])
    {
      hide Chained, Compress, Initial, Held;
      if at < |input| { CopyInto(left, input[at..]); }
      assert buffer[..][..|all| - done] == buffer[..left + |input| - at];
      HeldNow(Compress, Initial(), all, done, state, buffer[..]);
    }

    /** The length, carried over two words. */
    method Count(length: nat)
      requires total0 < 0x1_0000_0000 && length < 0x1_0000_0000
      requires total0 + 0x1_0000_0000 * total1 + length < 0x1_0000_0000_0000_0000
      modifies this`total0, this`total1
      ensures total0 < 0x1_0000_0000
      ensures total0 + 0x1_0000_0000 * total1 == old(total0) + 0x1_0000_0000 * old(total1) + length
    {
      total0 := (total0 + length) % 0x1_0000_0000;
      if total0 < length { total1 := (total1 + 1) % 0x1_0000_0000; }
    }

    /** The loop over whole blocks of the input. */
    method Blocks(ghost all: seq<Octet>, ghost done0: nat, input: seq<Octet>, at0: nat) returns (at: nat, length: nat)
      requires done0 % 64 == 0 && at0 <= |input| && done0 <= |all| && all[done0..] == input[at0..]
               && state == Chained(Compress, Initial(), all, done0)
      modifies this`state
      ensures length < 64 && at + length == |input| && at0 <= at && (done0 + at - at0) % 64 == 0
      ensures state == Chained(Compress, Initial(), all, done0 + at - at0)
    {
      hide Chained, Compress, Initial;
      at, length := at0, |input| - at0;
      while length >= 64
        invariant at + length == |input| && at0 <= at && (done0 + at - at0) % 64 == 0
                  && state == Chained(Compress, Initial(), all, done0 + at - at0)
      {
        ghost var done := done0 + at - at0;
        BlocksAdd(done, 64);
        SameTails(all, done0, input, at0, at - at0);
        SameTails(all, done, input, at, 64);
        ChainedNext(Compress, Initial(), all, done);
        Process(input[at..at + 64]);
        length := length - 64;
        at := at + 64;
      }
    }

    /** `memcpy` into the buffer. */
    method CopyInto(at: nat, bytes: seq<Octet>)
      requires buffer.Length == 64 && at + |bytes| <= 64
      modifies buffer
      ensures buffer[..at] == old(buffer[..at]) && buffer[at..at + |bytes|] == bytes
      ensures buffer[..at + |bytes|] == old(buffer[..at]) + bytes
    {
      for i := 0 to |bytes|
        invariant buffer[..at] == old(buffer[..at]) && buffer[at..at + i] == bytes[..i]
      {
        buffer[at + i] := bytes[i];
      }
      assert bytes[..|bytes|] == bytes;
    }

    /** `sha256_final`: the padding and the length, in bits over two words, are fed as well. */
    method Final() returns (digest: seq<Octet>)
      requires Valid() && |fed| < 0x2000_0000_0000_0000
      modifies this, buffer
      ensures digest == Digest(old(fed))
    {
      hide Compress, Initial, Fold, Word32, StoreRegs, StoreBig, Held, Padding;
      ghost var m := fed;
      var high := total0 / 0x2000_0000 + total1 * 8 % 0x1_0000_0000;
      var low := total0 * 8 % 0x1_0000_0000;
      BitLength(total0, total1, |m|);
      var msglen := StoreBig(Word32(high)) + StoreBig(Word32(low));
      var last := total0 % 64;
      var padn := if last < 56 then 56 - last else 120 - last;
      PaddingIs(|m|, padn);
      Update(([MARK] + Zeros(63))[..padn]);
      Update(msglen);
      assert |fed| == |m| + padn + 8;
      HeldWhole(Compress, Initial(), fed, state, buffer[..]);
      digest := StoreRegs(state);
    }
  }

  lemma BitLength(total0: nat, total1: nat, n: nat)
    requires total0 < 0x1_0000_0000 && n == total0 + 0x1_0000_0000 * total1 && n < 0x2000_0000_0000_0000
    ensures total0 / 0x2000_0000 + total1 * 8 % 0x1_0000_0000 == 8 * n / 0x1_0000_0000
    ensures total0 * 8 % 0x1_0000_0000 == 8 * n % 0x1_0000_0000 && total0 % 64 == n % 64
  {
    var high, low := TopThree(total0);
    LowBits(total0, total1, n);
    Quotient(total1 * 8, 0x1_0000_0000, 0, total1 * 8);
    Quotient(total0 * 8, 0x1_0000_0000, high, 8 * low);
    Quotient(8 * n, 0x1_0000_0000, high + 8 * total1, 8 * low);
  }

  lemma TopThree(total0: nat) returns (high: nat, low: nat)
    requires total0 < 0x1_0000_0000
    ensures total0 == 0x2000_0000 * high + low && low < 0x2000_0000 && high < 8 && total0 / 0x2000_0000 == high
  {
    high, low := total0 / 0x2000_0000, total0 % 0x2000_0000;
  }

  lemma LowBits(total0: nat, total1: nat, n: nat)
    requires n == total0 + 0x1_0000_0000 * total1
    ensures n % 64 == total0 % 64
  {
    var q, r := total0 / 64, total0 % 64;
    Quotient(n, 64, q + 0x400_0000 * total1, r);
  }

  lemma PaddingIs(n: nat, padn: nat)
    requires padn == if n % 64 < 56 then 56 - n % 64 else 120 - n % 64
    ensures padn <= 64 && (n + padn + 8) % 64 == 0 && ([MARK] + Zeros(63))[..padn] == Padding(n)
  {
    hide Zeros;
    Quotient(n + padn + 8, 64, n / 64 + (if n % 64 < 56 then 1 else 2), 0);
    SomeZeros(63, padn - 1);
    assert ([MARK] + Zeros(63))[..padn] == [MARK] + Zeros(63)[..padn - 1];
  }

  lemma SomeZeros(n: nat, k: nat)
    requires k <= n
    ensures Zeros(n)[..k] == Zeros(k)
  {}

  lemma FirstWords(b: Block, t: nat)
    requires t < 16
    ensures Schedule(b, t) == LoadBig(b[4 * t..4 * t + 4])
  {}

  lemma NoRounds(r: Regs, b: Block)
    ensures Rounds(r, b, 0) == r
  {}

  lemma LineIsRound(r: Regs, b: Block, t: nat, s: Regs, x: Word)
    requires t < 64 && Rounds(r, b, t) == s && x == Schedule(b, t)
    ensures var p := P(s.a, s.b, s.c, s.d, s.e, s.f, s.g, s.h, x, Constant(t));
            Rounds(r, b, t + 1) == Regs(p.1, s.a, s.b, s.c, p.0, s.e, s.f, s.g)
  {
    hide Schedule, Rounds, P, Round, Constant;
    NextRound(r, b, t);
    PIsRound(s, x, Constant(t));
  }

  /** The digest does not depend on how the message is cut into updates. */
  method HashPieces(pieces: seq<seq<Octet>>) returns (digest: seq<Octet>)
    requires forall i :: 0 <= i < |pieces| ==> |pieces[i]| < 0x1_0000_0000
    requires |Joined(pieces, |pieces|)| < 0x2000_0000_0000_0000
    ensures digest == Digest(Joined(pieces, |pieces|))
  {
    hide Digest, Held, Compress, Initial;
    var ctx := new Context();
    for i := 0 to |pieces|
      invariant ctx.Valid() && fresh(ctx) && fresh(ctx.buffer) && ctx.fed == Joined(pieces, i)
    {
      JoinedGrows(pieces, i + 1);
      ctx.Update(pieces[i]);
    }
    digest := ctx.Final();
  }
}
