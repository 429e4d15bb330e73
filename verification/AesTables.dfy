/** Columns of the AES state and the lookup tables that `aes_gen_tables` fills. */
module AesTables {
  import opened GaloisField
  import opened SBox

  /** A 32-bit word as its bytes, most significant first: one column of the state. */
  datatype Word = W(a: Byte, b: Byte, c: Byte, d: Byte)

  const C09 := B(false, false, false, false, true, false, false, true)
  const C0B := B(false, false, false, false, true, false, true, true)
  const C0D := B(false, false, false, false, true, true, false, true)
  const C0E := B(false, false, false, false, true, true, true, false)

  function XorW(u: Word, v: Word): (r: Word) {
    W(Xor(u.a, v.a), Xor(u.b, v.b), Xor(u.c, v.c), Xor(u.d, v.d))
  }

  /** `ROTR8`. */
  function Rotr8(w: Word): (r: Word) { W(w.d, w.a, w.b, w.c) }

  /** The column that MixColumns makes of a byte in row 0 (section 5.1.3 of FIPS 197). */
  function MixByte(x: Byte): (r: Word) { W(XTime(x), x, x, Xor(x, XTime(x))) }

  /** The column that InvMixColumns makes of a byte in row 0 (section 5.3.3). */
  function InvMixByte(y: Byte): (r: Word) { W(Mul(C0E, y), Mul(C09, y), Mul(C0D, y), Mul(C0B, y)) }

  /** The forward and reverse tables. */
  ghost function FT0(v: Byte): (r: Word) { MixByte(S(v)) }
  ghost function FT1(v: Byte): (r: Word) { Rotr8(FT0(v)) }
  ghost function FT2(v: Byte): (r: Word) { Rotr8(FT1(v)) }
  ghost function FT3(v: Byte): (r: Word) { Rotr8(FT2(v)) }
  ghost function RT0(v: Byte): (r: Word) { InvMixByte(R(v)) }
  ghost function RT1(v: Byte): (r: Word) { Rotr8(RT0(v)) }
  ghost function RT2(v: Byte): (r: Word) { Rotr8(RT1(v)) }
  ghost function RT3(v: Byte): (r: Word) { Rotr8(RT2(v)) }

  // ----- the generator, loop by loop ------------------------------------------------------

  ghost predicate LogsReady(pow: seq<Byte>, log: seq<nat>) {
    && |pow| == 256 && |log| == 256
    && (forall j :: 0 <= j < 256 ==> pow[j] == Pow(j))
    && (forall x :: x != ZERO ==> log[Val(x)] == Log(x))
  }

  ghost predicate SBoxesReady(fsb: seq<Byte>, rsb: seq<Byte>) {
    && |fsb| == 256 && |rsb| == 256
    && (forall x :: fsb[Val(x)] == S(x))
    && (forall y :: rsb[Val(y)] == R(y))
  }

  lemma PowNext(i: nat)
    ensures Pow(i + 1) == Xor(Pow(i), XTime(Pow(i)))
  {}

  /** The pow and log loop.  Its last turn stores 255 as the logarithm of 1. */
  method GenLogs() returns (pow: array<Byte>, log: array<nat>)
    ensures fresh(pow) && fresh(log) && LogsReady(pow[..], log[..])
  {
    hide Pow, Val, Xor, XTime;
    pow, log := new Byte[256], new nat[256];
    var x := ONE;
    PowZero();
    for i := 0 to 256
      invariant x == Pow(i)
      invariant forall j :: 0 <= j < i ==> pow[j] == Pow(j)
      invariant forall j :: 1 <= j < i ==> log[Val(Pow(j))] == j
    {
      forall j | 1 <= j < i ensures Val(Pow(j)) != Val(Pow(i)) {
        PowInjective(j, i);
        if Val(Pow(j)) == Val(Pow(i)) { ValInjective(Pow(j), Pow(i)); }
      }
      pow[i] := x;
      log[Val(x)] := i;
      PowNext(i);
      x := Xor(x, XTime(x));
    }
    forall y | y != ZERO ensures log[Val(y)] == Log(y) {
      assert Pow(Log(y)) == y;
    }
  }

  /** The round constants: the powers of x. */
  method GenRcon() returns (rcon: array<Byte>)
    ensures fresh(rcon) && rcon.Length == 10 && forall i :: 0 <= i < 10 ==> rcon[i] == XTimes(i, ONE)
  {
    hide XTime;
    rcon := new Byte[10];
    var x := ONE;
    for i := 0 to 10
      invariant x == XTimes(i, ONE)
      invariant forall j :: 0 <= j < i ==> rcon[j] == XTimes(j, ONE)
    {
      rcon[i] := x;
      x := XTime(x);
    }
  }

  lemma ZeroEntry()
    ensures S(ZERO) == C63 && ByteOf(0) == ZERO && Val(ZERO) == 0
  {
    hide Val, ByteOf;
    ZeroByte();
    ValOf(0);
    LinearIs(ZERO);
  }

  lemma ZeroByte()
    ensures ByteOf(0) == ZERO
  {}

  lemma OfVal(x: Byte)
    ensures ByteOf(Val(x)) == x
  {
    hide ByteOf, Val;
    ValOf(Val(x));
    ValInjective(ByteOf(Val(x)), x);
  }

  lemma Apart(i: nat, j: nat)
    requires i < j < 256
    ensures Val(S(ByteOf(i))) != Val(S(ByteOf(j)))
  {
    hide S, R, Val, ByteOf;
    ValOf(i);
    ValOf(j);
    RS(ByteOf(i));
    RS(ByteOf(j));
    if Val(S(ByteOf(i))) == Val(S(ByteOf(j))) { ValInjective(S(ByteOf(i)), S(ByteOf(j))); }
  }

  lemma AffineSteps(x: Byte, y1: Byte, y2: Byte, y3: Byte, y4: Byte)
    requires y1 == Rotate(x) && y2 == Rotate(y1) && y3 == Rotate(y2) && y4 == Rotate(y3)
    ensures Xor(Xor(Xor(Xor(x, y1), y2), y3), Xor(y4, C63)) == Xor(Linear(x), C63)
  {
    LinearIs(x);
    hide Xor, Rotate;
    XorAssoc(Xor(Xor(Xor(x, y1), y2), y3), y4, C63);
  }

  /** The S-box loop: inverse by logarithm, four rotations, and the reverse entry. */
  method GenSBoxes(pow: array<Byte>, log: array<nat>) returns (fsb: array<Byte>, rsb: array<Byte>)
    requires LogsReady(pow[..], log[..])
    ensures fresh(fsb) && fresh(rsb) && SBoxesReady(fsb[..], rsb[..])
  {
    hide Pow, Val, Xor, R, Rotate, ByteOf, Linear, SBoxesReady;
    fsb, rsb := new Byte[256], new Byte[256];
    ZeroEntry();
    fsb[0] := C63;
    rsb[Val(C63)] := ZERO;
    for i := 1 to 256
      invariant forall j :: 0 <= j < i ==> fsb[j] == S(ByteOf(j))
      invariant forall j :: 0 <= j < i ==> rsb[Val(S(ByteOf(j)))] == ByteOf(j)
    {
      hide S;
      var v := ByteOf(i);
      ValOf(i);
      NonzeroVal(v);
      assert log[..][i] == Log(v);
      var x0 := pow[255 - log[i]];
      assert x0 == Inv(v);
      var y1 := Rotate(x0);
      var y2 := Rotate(y1);
      var y3 := Rotate(y2);
      var y4 := Rotate(y3);
      var x := Xor(Xor(Xor(Xor(x0, y1), y2), y3), Xor(y4, C63));
      AffineSteps(x0, y1, y2, y3, y4);
      IsS(v, x0);
      forall j | 0 <= j < i ensures Val(S(ByteOf(j))) != Val(S(v)) { Apart(j, i); }
      fsb[i] := x;
      rsb[Val(x)] := v;
    }
    BoxesReady(fsb[..], rsb[..]);
  }

  /** Entries by number are entries by byte. */
  lemma BoxesReady(fsb: seq<Byte>, rsb: seq<Byte>)
    requires |fsb| == |rsb| == 256 && forall j :: 0 <= j < 256 ==> fsb[j] == S(ByteOf(j))
    requires forall j :: 0 <= j < 256 ==> rsb[Val(S(ByteOf(j)))] == ByteOf(j)
    ensures SBoxesReady(fsb, rsb)
  {
    hide S, R, Val, ByteOf;
    forall b ensures fsb[Val(b)] == S(b) && rsb[Val(b)] == R(b) {
      OfVal(b);
      SR(b);
      OfVal(R(b));
      assert rsb[Val(S(ByteOf(Val(R(b)))))] == ByteOf(Val(R(b)));
    }
  }

  lemma IsS(v: Byte, inv: Byte)
    requires inv == Inv(v)
    ensures Xor(Linear(inv), C63) == S(v)
  {}

  /** `MUL(x, y)` over the tables. */
  method MulLookup(pow: array<Byte>, log: array<nat>, x: Byte, y: Byte) returns (z: Byte)
    requires LogsReady(pow[..], log[..])
    ensures z == Mul(x, y)
  {
    hide Pow, Val, Mul;
    if x != ZERO && y != ZERO {
      assert log[..][Val(x)] == Log(x) && log[..][Val(y)] == Log(y);
      var k := (log[Val(x)] + log[Val(y)]) % 255;
      assert pow[..][k] == Pow(k);
      z := pow[k];
      MulByLogs(x, y, z);
    } else {
      z := ZERO;
      ZeroTimes(x);
      ZeroTimes(y);
    }
  }

  /** The table lists the values of `f`; `Filled` says so for the first entries. */
  ghost predicate IsTable(t: seq<Word>, f: Byte -> Word) {
    |t| == 256 && forall v :: t[Val(v)] == f(v)
  }

  ghost predicate Filled(t: seq<Word>, f: Byte -> Word, n: nat) {
    |t| == 256 && n <= 256 && forall j :: 0 <= j < n ==> t[j] == f(ByteOf(j))
  }

  lemma FilledIsTable(t: seq<Word>, f: Byte -> Word)
    requires Filled(t, f, 256)
    ensures IsTable(t, f)
  {
    hide Val, ByteOf;
    forall v ensures t[Val(v)] == f(v) { OfVal(v); }
  }

  /** The forward tables at the end of `aes_gen_tables`. */
  method GenForward(fsb: array<Byte>) returns (f0: array<Word>, f1: array<Word>, f2: array<Word>, f3: array<Word>)
    requires fsb.Length == 256 && forall x :: fsb[Val(x)] == S(x)
    ensures IsTable(f0[..], FT0) && IsTable(f1[..], FT1) && IsTable(f2[..], FT2) && IsTable(f3[..], FT3)
  {
    hide Val, S, Xor, XTime, ByteOf;
    f0, f1, f2, f3 := new Word[256], new Word[256], new Word[256], new Word[256];
    for i := 0 to 256
      invariant Filled(f0[..], FT0, i) && Filled(f1[..], FT1, i) && Filled(f2[..], FT2, i) && Filled(f3[..], FT3, i)
    {
      ValOf(i);
      assert fsb[Val(ByteOf(i))] == S(ByteOf(i));
      var x := fsb[i];
      var y := XTime(x);
      f0[i] := W(y, x, x, Xor(x, y));
      f1[i] := Rotr8(f0[i]);
      f2[i] := Rotr8(f1[i]);
      f3[i] := Rotr8(f2[i]);
    }
    FilledIsTable(f0[..], FT0);
    FilledIsTable(f1[..], FT1);
    FilledIsTable(f2[..], FT2);
    FilledIsTable(f3[..], FT3);
  }

  method ReverseEntry(pow: array<Byte>, log: array<nat>, y: Byte) returns (w: Word)
    requires LogsReady(pow[..], log[..])
    ensures w == InvMixByte(y)
  {
    hide LogsReady, Mul;
    var m0b := MulLookup(pow, log, C0B, y);
    var m0d := MulLookup(pow, log, C0D, y);
    var m09 := MulLookup(pow, log, C09, y);
    var m0e := MulLookup(pow, log, C0E, y);
    w := W(m0e, m09, m0d, m0b);
  }

  /** The reverse tables, which the same loop fills. */
  method GenReverse(pow: array<Byte>, log: array<nat>, rsb: array<Byte>)
    returns (r0: array<Word>, r1: array<Word>, r2: array<Word>, r3: array<Word>)
    requires LogsReady(pow[..], log[..]) && rsb.Length == 256 && forall y :: rsb[Val(y)] == R(y)
    ensures IsTable(r0[..], RT0) && IsTable(r1[..], RT1) && IsTable(r2[..], RT2) && IsTable(r3[..], RT3)
  {
    hide Val, R, Mul, ByteOf, Pow, LogsReady, InvMixByte;
    r0, r1, r2, r3 := new Word[256], new Word[256], new Word[256], new Word[256];
    for i := 0 to 256
      invariant Filled(r0[..], RT0, i) && Filled(r1[..], RT1, i) && Filled(r2[..], RT2, i) && Filled(r3[..], RT3, i)
    {
      ValOf(i);
      assert rsb[Val(ByteOf(i))] == R(ByteOf(i));
      var y := rsb[i];
      r0[i] := ReverseEntry(pow, log, y);
      r1[i] := Rotr8(r0[i]);
      r2[i] := Rotr8(r1[i]);
      r3[i] := Rotr8(r2[i]);
    }
    FilledIsTable(r0[..], RT0);
    FilledIsTable(r1[..], RT1);
    FilledIsTable(r2[..], RT2);
    FilledIsTable(r3[..], RT3);
  }

  /** `aes_gen_tables`. */
  method GenTables()
    returns (fsb: array<Byte>, rsb: array<Byte>, rcon: array<Byte>, ft: seq<array<Word>>, rt: seq<array<Word>>)
    ensures SBoxesReady(fsb[..], rsb[..])
    ensures rcon.Length == 10 && forall i :: 0 <= i < 10 ==> rcon[i] == XTimes(i, ONE)
    ensures |ft| == 4 && |rt| == 4
    ensures IsTable(ft[0][..], FT0) && IsTable(ft[1][..], FT1) && IsTable(ft[2][..], FT2) && IsTable(ft[3][..], FT3)
    ensures IsTable(rt[0][..], RT0) && IsTable(rt[1][..], RT1) && IsTable(rt[2][..], RT2) && IsTable(rt[3][..], RT3)
  {
    hide LogsReady, IsTable, Val, S, R, XTimes;
    var pow, log := GenLogs();
    rcon := GenRcon();
    fsb, rsb := GenSBoxes(pow, log);
    forall x ensures fsb[Val(x)] == S(x) { assert fsb[..][Val(x)] == S(x); }
    forall y ensures rsb[Val(y)] == R(y) { assert rsb[..][Val(y)] == R(y); }
    var f0, f1, f2, f3 := GenForward(fsb);
    var r0, r1, r2, r3 := GenReverse(pow, log, rsb);
    ft, rt := [f0, f1, f2, f3], [r0, r1, r2, r3];
  }
}
