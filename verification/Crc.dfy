/** Reflected 32-bit CRCs over any polynomial: the bit-serial definition, its linearity, and the
    lookup tables. */
module Crc {
  import opened Bits

  /** Shift one bit out of the register. */
  function Step(p: Word, c: Word): (r: Word) {
    if c[0] then Xor(Shr(c, 1), p) else Shr(c, 1)
  }

  function Steps(p: Word, n: nat, c: Word): (r: Word) {
    if n == 0 then c else Step(p, Steps(p, n - 1, c))
  }

  /** The register after a message, bit by bit: the definition everything else is measured by. */
  function Run(p: Word, c: Word, s: seq<Octet>): (r: Word)
    decreases |s|
  {
    if s == [] then c else Run(p, Steps(p, 8, Xor(c, ZeroExtend(s[0]))), s[1..])
  }

  /** The checksum of a message continuing from an earlier checksum. */
  function Checksum(p: Word, sum: Word, s: seq<Octet>): (r: Word) {
    Not(Run(p, Not(sum), s))
  }

  // ----- linearity ------------------------------------------------------------------------

  lemma StepLinear(p: Word, a: Word, b: Word)
    ensures Step(p, Xor(a, b)) == Xor(Step(p, a), Step(p, b))
  {}

  lemma {:induction false} StepsLinear(p: Word, n: nat, a: Word, b: Word)
    ensures Steps(p, n, Xor(a, b)) == Xor(Steps(p, n, a), Steps(p, n, b))
  {
    if n > 0 {
      hide Step, Xor;
      StepsLinear(p, n - 1, a, b);
      StepLinear(p, Steps(p, n - 1, a), Steps(p, n - 1, b));
    }
  }

  lemma {:induction false} StepsAdd(p: Word, m: nat, n: nat, c: Word)
    ensures Steps(p, m + n, c) == Steps(p, m, Steps(p, n, c))
  {
    hide Step;
    if m > 0 { StepsAdd(p, m - 1, n, c); }
  }

  lemma {:induction false} StepsZero(p: Word, n: nat)
    ensures Steps(p, n, ZERO) == ZERO
  {
    if n > 0 { StepsZero(p, n - 1); }
  }

  /** Feeding A and then B is feeding A ++ B. */
  lemma {:induction false} RunConcat(p: Word, c: Word, s: seq<Octet>, t: seq<Octet>)
    ensures Run(p, c, s + t) == Run(p, Run(p, c, s), t)
    decreases |s|
  {
    hide Steps, Xor;
    if s == [] {
      assert s + t == t;
    } else {
      assert (s + t)[1..] == s[1..] + t;
      RunConcat(p, Steps(p, 8, Xor(c, ZeroExtend(s[0]))), s[1..], t);
    }
  }

  /** A difference in the start register passes through a message as that many zero bits. */
  lemma {:induction false} RunLinear(p: Word, c: Word, d: Word, s: seq<Octet>)
    ensures Run(p, Xor(c, d), s) == Xor(Run(p, c, s), Steps(p, 8 * |s|, d))
    decreases |s|
  {
    if s == [] {
      assert Steps(p, 0, d) == d;
    } else {
      var b := ZeroExtend(s[0]);
      assert Xor(Xor(c, d), b) == Xor(Xor(c, b), d);
      hide Steps, Xor, Step;
      StepsLinear(p, 8, Xor(c, b), d);
      RunLinear(p, Steps(p, 8, Xor(c, b)), Steps(p, 8, d), s[1..]);
      StepsAdd(p, 8 * |s[1..]|, 8, d);
    }
  }

  lemma ChecksumConcat(p: Word, sum: Word, s: seq<Octet>, t: seq<Octet>)
    ensures Checksum(p, sum, s + t) == Checksum(p, Checksum(p, sum, s), t)
  {
    hide Run, Xor;
    RunConcat(p, Not(sum), s, t);
    XorCancel(Run(p, Not(sum), s), ONES);
  }

  /** The law behind `combine`: the first checksum is moved over |t| zero bytes. */
  lemma ChecksumCombines(p: Word, sum: Word, s: seq<Octet>, t: seq<Octet>)
    ensures Checksum(p, sum, s + t) == Xor(Steps(p, 8 * |t|, Checksum(p, sum, s)), Checksum(p, ZERO, t))
  {
    hide Run, Steps, Xor;
    var u := Checksum(p, sum, s);
    ChecksumConcat(p, sum, s, t);
    XorComm(u, ONES);
    XorCancel(ONES, ZERO);
    RunLinear(p, ONES, u, t);
    var x, z := Run(p, ONES, t), Steps(p, 8 * |t|, u);
    XorComm(x, z);
    XorAssoc(z, x, ONES);
  }

  // ----- lookup tables --------------------------------------------------------------------

  /** Row `k` of the lookup tables.  Row 0 is eight bit steps of the index; each further row
      adds one zero byte, by the recurrence table generators use. */
  function Table(p: Word, k: nat, n: Word): (r: Word) {
    if k == 0 then Steps(p, 8, n)
    else
      var t := Table(p, k - 1, n);
      Xor(Table(p, 0, Low8(t)), Shr(t, 8))
  }

  lemma {:induction false} ZeroSteps(p: Word, n: nat, c: Word)
    requires n <= 32 && forall i :: 0 <= i < n ==> !c[i]
    ensures Steps(p, n, c) == Shr(c, n)
  {
    if n > 0 { ZeroSteps(p, n - 1, c); }
  }

  /** One zero byte by table. */
  lemma ZeroByte(p: Word, c: Word)
    ensures Xor(Table(p, 0, Low8(c)), Shr(c, 8)) == Steps(p, 8, c)
  {
    hide Steps;
    var lo, hi := Low8(c), Shl(Shr(c, 8), 8);
    assert Xor(lo, hi) == c && Shr(hi, 8) == Shr(c, 8);
    StepsLinear(p, 8, lo, hi);
    ZeroSteps(p, 8, hi);
  }

  /** The byte-at-a-time update of every loop is eight bit steps. */
  lemma ByteByTable(p: Word, c: Word, b: Octet)
    ensures Xor(Table(p, 0, Low8(Xor(c, ZeroExtend(b)))), Shr(c, 8)) == Steps(p, 8, Xor(c, ZeroExtend(b)))
  {
    hide Steps, Table;
    ZeroByte(p, Xor(c, ZeroExtend(b)));
    assert Shr(Xor(c, ZeroExtend(b)), 8) == Shr(c, 8);
  }

  lemma {:induction false} TableIsSteps(p: Word, k: nat, n: Word)
    ensures Table(p, k, n) == Steps(p, 8 * (k + 1), n)
  {
    hide Steps, Xor;
    if k > 0 {
      TableIsSteps(p, k - 1, n);
      ZeroByte(p, Table(p, k - 1, n));
      StepsAdd(p, 8, 8 * k, n);
    }
  }
}
