/** `SL_Crypto_RaknetRand`: the Mersenne Twister whose state is renewed in place, 624 words at a
    time. */
module MersenneTwister {
  import opened Arithmetic
  import opened Bits
  import opened Words

  const N := 624
  const M := 397
  const MAGIC: Word := Hex(0x9908B0DF)
  const HI_MASK: Word := Hex(0x8000_0000)
  const LO_MASK: Word := Hex(0x7FFF_FFFF)
  const ONE: Word := Hex(1)

  // ----- the recurrence -------------------------------------------------------------------

  /** `mixBits`: the high bit of one word, the low bits of the next. */
  function MixBits(u: Word, v: Word): (r: Word) { Or(And(u, HI_MASK), And(v, LO_MASK)) }

  /** One word of the next state. */
  function Twist(m: Word, s0: Word, s1: Word): (r: Word) {
    Xor(Xor(m, Shr(MixBits(s0, s1), 1)), if s1[0] then MAGIC else ZERO)
  }

  function Temper(y: Word): (r: Word) {
    var a := Xor(y, Shr(y, 11));
    var b := Xor(a, And(Shl(a, 7), Hex(0x9D2C5680)));
    var c := Xor(b, And(Shl(b, 15), Hex(0xEFC60000)));
    Xor(c, Shr(c, 18))
  }

  /** The generator of the first state: x -> 69069 x modulo 2^32, from an odd seed. */
  function Congruential(x: Word): (r: Word) { FromNat(69069 * Number(x), 32) }

  /** The sequence of the generator: N words of seed, and then each word from three before it. */
  function X(seed: Word, k: nat): (r: Word) {
    if k == 0 then Or(seed, ONE)
    else if k < N then Congruential(X(seed, k - 1))
    else Twist(X(seed, k - N + M), X(seed, k - N), X(seed, k - N + 1))
  }

  lemma XNext(seed: Word, k: nat)
    requires k >= N
    ensures X(seed, k) == Twist(X(seed, k - N + M), X(seed, k - N), X(seed, k - N + 1))
  {
    hide Twist;
  }

  /** The array holds N words of the sequence from number `from` on. */
  ghost predicate Holds(s: seq<Word>, seed: Word, from: nat) {
    |s| == N + 1 && forall i :: 0 <= i < N ==> s[i] == X(seed, from + i)
  }

  /** Part of the way through: the first `done` words are already those of the next state. */
  ghost predicate Half(s: seq<Word>, seed: Word, from: nat, done: nat) {
    && |s| == N + 1 && done <= N
    && (forall i :: 0 <= i < done ==> s[i] == X(seed, from + N + i))
    && (forall i :: done <= i < N ==> s[i] == X(seed, from + i))
  }

  // ----- the generator --------------------------------------------------------------------

  class Generator {
    const state: array<Word>
    var next: nat
    var left: int
    ghost var seeded: bool
    ghost var seed: Word
    ghost var drawn: nat

    /** After `drawn` numbers the state is the block of the sequence that the last came from, and
        `next` and `left` say where in it. */
    ghost predicate Valid()
      reads this, state
    {
      && state.Length == N + 1
      && (!seeded ==> left == -1)
      && (seeded && drawn == 0 ==> left == 0 && Holds(state[..], seed, 0))
      && (seeded && drawn > 0 ==>
            var k := (drawn - 1) % N + 1;
            left == N - k && next == k && Holds(state[..], seed, drawn - k + N))
    }

    /** The constructor before it seeds; the last word of the array is never given a value. */
    constructor (garbage: Word)
      ensures Valid() && !seeded && fresh(state)
    {
      state := new Word[N + 1](_ => garbage);
      next, left, seeded, seed, drawn := 0, -1, false, ZERO, 0;
    }

    /** `seed_mt`. */
    method Seed(seed: Word)
      requires state.Length == N + 1
      modifies this, state
      ensures Valid() && seeded && this.seed == seed && drawn == 0
    {
      hide X, Congruential, Or, Word32;
      left := 0;
      var x := Or(seed, ONE);
      XSeed(seed);
      state[0] := x;
      for j := 1 to N
        invariant x == X(seed, j - 1) && left == 0
        invariant forall i :: 0 <= i < j ==> state[i] == X(seed, i)
      {
        XStep(seed, j);
        x := Congruential(x);
        state[j] := x;
      }
      this.seed, seeded, drawn := seed, true, 0;
    }

    /** `random_int` up to its `abs`: draw number `drawn` is the tempered word N + `drawn` of the
        sequence.  A generator that was never seeded takes 4357. */
    method RandomInt() returns (r: Word)
      requires Valid()
      modifies this, state
      ensures Valid() && seeded && seed == (if old(seeded) then old(seed) else Word32(4357))
      ensures drawn == (if old(seeded) then old(drawn) else 0) + 1
      ensures r == Temper(X(seed, N + drawn - 1))
    {
      hide X, Temper;
      left := left - 1;
      if left < 0 {
        r := Reload();
        return;
      }
      Within(drawn);
      var y := state[next];
      next := next + 1;
      drawn := drawn + 1;
      r := Temper(y);
    }

    /** `reload_mt`: the whole next block, in place, in three parts. */
    method Reload() returns (r: Word)
      requires state.Length == N + 1
      requires if seeded then left == -1 && (drawn == 0 || drawn % N == 0) && Holds(state[..], seed, drawn)
               else left == -2
      modifies this, state
      ensures Valid() && seeded && seed == (if old(seeded) then old(seed) else Word32(4357))
      ensures drawn == (if old(seeded) then old(drawn) else 0) + 1
      ensures r == Temper(X(seed, N + drawn - 1))
    {
      hide X, Twist, Temper, Word32, Half;
      if left < -1 {
        Seed(Word32(4357));
      }
      left := N - 1;
      next := 1;
      ghost var from := drawn;
      HalfStart(state[..], seed, from);
      var p2 := 2;
      var s0, s1 := state[0], state[1];
      for p0 := 0 to N - M
        invariant Half(state[..], seed, from, p0) && p2 == p0 + 2 && s0 == X(seed, from + p0)
                  && s1 == X(seed, from + p0 + 1)
        invariant seeded && seed == old(if seeded then seed else Word32(4357)) && drawn == from && left == N - 1
                  && next == 1
      {
        HalfStep(state[..], seed, from, p0, s0, s1);
        state[p0] := Twist(state[p0 + M], s0, s1);
        s0, s1 := s1, state[p2];
        p2 := p2 + 1;
      }
      for p0 := N - M to N - 1
        invariant Half(state[..], seed, from, p0) && p2 == p0 + 2 && s0 == X(seed, from + p0)
        invariant p0 < N - 1 ==> s1 == X(seed, from + p0 + 1)
        invariant seeded && seed == old(if seeded then seed else Word32(4357)) && drawn == from && left == N - 1
                  && next == 1
      {
        HalfStep(state[..], seed, from, p0, s0, s1);
        state[p0] := Twist(state[p0 - (N - M)], s0, s1);
        s0, s1 := s1, state[p2];
        p2 := p2 + 1;
      }
      // What `s1` holds now, the word past the state, is never used.
      s1 := state[0];
      HalfStep(state[..], seed, from, N - 1, s0, s1);
      state[N - 1] := Twist(state[M - 1], s0, s1);
      drawn := from + 1;
      r := Temper(s1);
    }
  }

  lemma HalfStart(s: seq<Word>, seed: Word, from: nat)
    requires Holds(s, seed, from)
    ensures Half(s, seed, from, 0) && s[0] == X(seed, from) && s[1] == X(seed, from + 1)
  {
    hide X;
  }

  /** Which words the next one comes from, and that they are still, or already, there. */
  lemma HalfStep(s: seq<Word>, seed: Word, from: nat, p: nat, s0: Word, s1: Word)
    requires Half(s, seed, from, p) && p < N && s0 == X(seed, from + p)
    requires s1 == if p < N - 1 then X(seed, from + p + 1) else s[0]
    ensures var w := Twist(s[if p < N - M then p + M else p - (N - M)], s0, s1);
            && Half(s[p := w], seed, from, p + 1) && (p == N - 1 ==> Holds(s[p := w], seed, from + N))
    ensures p > 0 ==> s[0] == X(seed, from + N)
    ensures p + 2 < N ==> s[p + 2] == X(seed, from + p + 2)
  {
    hide X, Twist;
    XNext(seed, from + N + p);
  }

  lemma XSeed(seed: Word)
    ensures X(seed, 0) == Or(seed, ONE)
  {}

  lemma XStep(seed: Word, k: nat)
    requires 0 < k < N
    ensures X(seed, k) == Congruential(X(seed, k - 1))
  {}

  lemma Within(drawn: nat)
    requires drawn > 0 && (drawn - 1) % N + 1 < N
    ensures drawn % N == (drawn - 1) % N + 1
  {
    Quotient(drawn, N, (drawn - 1) / N, (drawn - 1) % N + 1);
  }
}
