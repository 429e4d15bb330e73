/** The table rounds of `aes_encrypt` and `aes_decrypt` are the rounds of FIPS 197. */
module AesRounds {
  import opened GaloisField
  import opened SBox
  import opened AesTables
  import opened AesCipher

  /** The global tables once `aes_gen_tables` has run. */
  datatype TableSet = TableSet(fsb: seq<Byte>, rsb: seq<Byte>, rcon: seq<Byte>,
                               f0: seq<Word>, f1: seq<Word>, f2: seq<Word>, f3: seq<Word>,
                               r0: seq<Word>, r1: seq<Word>, r2: seq<Word>, r3: seq<Word>,
                               k0: seq<Word>, k1: seq<Word>, k2: seq<Word>, k3: seq<Word>)
  {
    ghost predicate Ready() {
      && SBoxesReady(fsb, rsb) && |rcon| == 10 && (forall i :: 0 <= i < 10 ==> rcon[i] == XTimes(i, ONE))
      && IsTable(f0, FT0) && IsTable(f1, FT1) && IsTable(f2, FT2) && IsTable(f3, FT3)
      && IsTable(r0, RT0) && IsTable(r1, RT1) && IsTable(r2, RT2) && IsTable(r3, RT3)
      && IsTable(k0, KT0) && IsTable(k1, KT1) && IsTable(k2, KT2) && IsTable(k3, KT3)
    }

    predicate Sized() {
      && |fsb| == |rsb| == 256 && |f0| == |f1| == |f2| == |f3| == 256 && |r0| == |r1| == |r2| == |r3| == 256
      && |k0| == |k1| == |k2| == |k3| == 256 && |rcon| == 10
    }

    lemma Lookups(v: Byte)
      requires Ready()
      ensures Sized()
      ensures fsb[Val(v)] == S(v) && rsb[Val(v)] == R(v)
      ensures f0[Val(v)] == FT0(v) && f1[Val(v)] == FT1(v) && f2[Val(v)] == FT2(v) && f3[Val(v)] == FT3(v)
      ensures r0[Val(v)] == RT0(v) && r1[Val(v)] == RT1(v) && r2[Val(v)] == RT2(v) && r3[Val(v)] == RT3(v)
    {
      hide Val, S, R;
    }
  }

  /** The key tables hold the columns of InvMixColumns for the bytes themselves. */
  ghost function KT0(v: Byte): (r: Word) { InvMixByte(v) }
  ghost function KT1(v: Byte): (r: Word) { Rotr8(KT0(v)) }
  ghost function KT2(v: Byte): (r: Word) { Rotr8(KT1(v)) }
  ghost function KT3(v: Byte): (r: Word) { Rotr8(KT2(v)) }

  /** `KT[i] = RT[FSb[i]]`: the reverse table already undoes the S-box. */
  method KeyTable(fsb: array<Byte>, rt: array<Word>, ghost rf: Byte -> Word, ghost kf: Byte -> Word)
    returns (kt: array<Word>)
    requires fsb.Length == 256 && (forall x :: fsb[Val(x)] == S(x)) && IsTable(rt[..], rf)
    requires forall v :: rf(S(v)) == kf(v)
    ensures IsTable(kt[..], kf)
  {
    hide Val, S, ByteOf;
    kt := new Word[256];
    for i := 0 to 256
      invariant Filled(kt[..], kf, i)
    {
      ValOf(i);
      assert fsb[Val(ByteOf(i))] == S(ByteOf(i));
      assert rt[..][Val(fsb[i])] == rf(S(ByteOf(i)));
      kt[i] := rt[Val(fsb[i])];
    }
    FilledIsTable(kt[..], kf);
  }

  method MakeTables() returns (t: TableSet)
    ensures t.Ready()
  {
    hide IsTable, XTimes, S, R, Val, InvMixByte, Rotr8;
    var fsb, rsb, rcon, ft, rt := GenTables();
    forall x ensures fsb[Val(x)] == S(x) { assert fsb[..][Val(x)] == S(x); }
    forall v ensures R(S(v)) == v { RS(v); }
    var k0 := KeyTable(fsb, rt[0], RT0, KT0);
    var k1 := KeyTable(fsb, rt[1], RT1, KT1);
    var k2 := KeyTable(fsb, rt[2], RT2, KT2);
    var k3 := KeyTable(fsb, rt[3], RT3, KT3);
    t := TableSet(fsb[..], rsb[..], rcon[..], ft[0][..], ft[1][..], ft[2][..], ft[3][..],
                  rt[0][..], rt[1][..], rt[2][..], rt[3][..], k0[..], k1[..], k2[..], k3[..]);
  }

  // ----- one column of a round ------------------------------------------------------------

  /** One line of `AES_FROUND` and of `AES_RROUND`. */
  function FColumn(t: TableSet, k: Word, a: Byte, b: Byte, c: Byte, d: Byte): (r: Word)
    requires t.Sized()
  {
    XorW(XorW(XorW(XorW(k, t.f0[Val(a)]), t.f1[Val(b)]), t.f2[Val(c)]), t.f3[Val(d)])
  }

  function RColumn(t: TableSet, k: Word, a: Byte, b: Byte, c: Byte, d: Byte): (r: Word)
    requires t.Sized()
  {
    XorW(XorW(XorW(XorW(k, t.r0[Val(a)]), t.r1[Val(b)]), t.r2[Val(c)]), t.r3[Val(d)])
  }

  /** One line of the last round: S-box bytes in place of table words. */
  function LastColumn(box: seq<Byte>, k: Word, a: Byte, b: Byte, c: Byte, d: Byte): (r: Word)
    requires |box| == 256
  {
    XorW(XorW(XorW(XorW(k, W(box[Val(a)], ZERO, ZERO, ZERO)), W(ZERO, box[Val(b)], ZERO, ZERO)),
              W(ZERO, ZERO, box[Val(c)], ZERO)), W(ZERO, ZERO, ZERO, box[Val(d)]))
  }

  lemma SumOfFour(k: Word, a: Word, b: Word, c: Word, d: Word)
    ensures XorW(XorW(XorW(XorW(k, a), b), c), d) == XorW(k, XorW(XorW(XorW(a, b), c), d))
  {
    hide XorW;
    XorWAssoc(k, a, b);
    XorWAssoc(k, XorW(a, b), c);
    XorWAssoc(k, XorW(XorW(a, b), c), d);
  }

  lemma FColumnIs(t: TableSet, k: Word, a: Byte, b: Byte, c: Byte, d: Byte)
    requires t.Ready() && t.Sized()
    ensures FColumn(t, k, a, b, c, d) == XorW(k, Mix(W(S(a), S(b), S(c), S(d))))
  {
    hide Val, S, R, XorW, Rotr8, MixByte, InvMixByte;
    t.Lookups(a);
    t.Lookups(b);
    t.Lookups(c);
    t.Lookups(d);
    SumOfFour(k, FT0(a), FT1(b), FT2(c), FT3(d));
  }

  lemma RColumnIs(t: TableSet, k: Word, a: Byte, b: Byte, c: Byte, d: Byte)
    requires t.Ready() && t.Sized()
    ensures RColumn(t, k, a, b, c, d) == XorW(k, InvMix(W(R(a), R(b), R(c), R(d))))
  {
    hide Val, S, R, XorW, Rotr8, MixByte, InvMixByte;
    t.Lookups(a);
    t.Lookups(b);
    t.Lookups(c);
    t.Lookups(d);
    SumOfFour(k, RT0(a), RT1(b), RT2(c), RT3(d));
  }

  lemma LastColumnIs(box: seq<Byte>, k: Word, a: Byte, b: Byte, c: Byte, d: Byte)
    requires |box| == 256
    ensures LastColumn(box, k, a, b, c, d) == XorW(k, W(box[Val(a)], box[Val(b)], box[Val(c)], box[Val(d)]))
  {
    hide Val, XorW;
    var w := W(box[Val(a)], box[Val(b)], box[Val(c)], box[Val(d)]);
    SumOfFour(k, W(w.a, ZERO, ZERO, ZERO), W(ZERO, w.b, ZERO, ZERO), W(ZERO, ZERO, w.c, ZERO),
      W(ZERO, ZERO, ZERO, w.d));
    Assemble(w);
  }

  function FRound(t: TableSet, k: State, y: State): (r: State)
    requires t.Sized()
  {
    St(FColumn(t, k.x0, y.x0.a, y.x1.b, y.x2.c, y.x3.d), FColumn(t, k.x1, y.x1.a, y.x2.b, y.x3.c, y.x0.d),
       FColumn(t, k.x2, y.x2.a, y.x3.b, y.x0.c, y.x1.d), FColumn(t, k.x3, y.x3.a, y.x0.b, y.x1.c, y.x2.d))
  }

  function RRound(t: TableSet, k: State, y: State): (r: State)
    requires t.Sized()
  {
    St(RColumn(t, k.x0, y.x0.a, y.x3.b, y.x2.c, y.x1.d), RColumn(t, k.x1, y.x1.a, y.x0.b, y.x3.c, y.x2.d),
       RColumn(t, k.x2, y.x2.a, y.x1.b, y.x0.c, y.x3.d), RColumn(t, k.x3, y.x3.a, y.x2.b, y.x1.c, y.x0.d))
  }

  function FLast(t: TableSet, k: State, y: State): (r: State)
    requires t.Sized()
  {
    St(LastColumn(t.fsb, k.x0, y.x0.a, y.x1.b, y.x2.c, y.x3.d), LastColumn(t.fsb, k.x1, y.x1.a, y.x2.b, y.x3.c, y.x0.d),
       LastColumn(t.fsb, k.x2, y.x2.a, y.x3.b, y.x0.c, y.x1.d), LastColumn(t.fsb, k.x3, y.x3.a, y.x0.b, y.x1.c, y.x2.d))
  }

  function RLast(t: TableSet, k: State, y: State): (r: State)
    requires t.Sized()
  {
    St(LastColumn(t.rsb, k.x0, y.x0.a, y.x3.b, y.x2.c, y.x1.d), LastColumn(t.rsb, k.x1, y.x1.a, y.x0.b, y.x3.c, y.x2.d),
       LastColumn(t.rsb, k.x2, y.x2.a, y.x1.b, y.x0.c, y.x3.d), LastColumn(t.rsb, k.x3, y.x3.a, y.x2.b, y.x1.c, y.x0.d))
  }

  /** The table rounds are the rounds of the standard. */
  lemma FRoundIs(t: TableSet, k: State, y: State)
    requires t.Ready() && t.Sized()
    ensures FRound(t, k, y) == AddKey(k, MixState(SubShift(y)))
  {
    hide FColumn, S, Mix, XorW;
    FColumnIs(t, k.x0, y.x0.a, y.x1.b, y.x2.c, y.x3.d);
    FColumnIs(t, k.x1, y.x1.a, y.x2.b, y.x3.c, y.x0.d);
    FColumnIs(t, k.x2, y.x2.a, y.x3.b, y.x0.c, y.x1.d);
    FColumnIs(t, k.x3, y.x3.a, y.x0.b, y.x1.c, y.x2.d);
  }

  lemma RRoundIs(t: TableSet, k: State, y: State)
    requires t.Ready() && t.Sized()
    ensures RRound(t, k, y) == AddKey(k, InvMixState(InvSubShift(y)))
  {
    hide RColumn, R, InvMix, XorW;
    RColumnIs(t, k.x0, y.x0.a, y.x3.b, y.x2.c, y.x1.d);
    RColumnIs(t, k.x1, y.x1.a, y.x0.b, y.x3.c, y.x2.d);
    RColumnIs(t, k.x2, y.x2.a, y.x1.b, y.x0.c, y.x3.d);
    RColumnIs(t, k.x3, y.x3.a, y.x2.b, y.x1.c, y.x0.d);
  }

  lemma FLastIs(t: TableSet, k: State, y: State)
    requires t.Ready() && t.Sized()
    ensures FLast(t, k, y) == AddKey(k, SubShift(y))
  {
    hide LastColumn, S, R, XorW, Val;
    forall v ensures t.fsb[Val(v)] == S(v) { t.Lookups(v); }
    LastColumnIs(t.fsb, k.x0, y.x0.a, y.x1.b, y.x2.c, y.x3.d);
    LastColumnIs(t.fsb, k.x1, y.x1.a, y.x2.b, y.x3.c, y.x0.d);
    LastColumnIs(t.fsb, k.x2, y.x2.a, y.x3.b, y.x0.c, y.x1.d);
    LastColumnIs(t.fsb, k.x3, y.x3.a, y.x0.b, y.x1.c, y.x2.d);
  }

  lemma RLastIs(t: TableSet, k: State, y: State)
    requires t.Ready() && t.Sized()
    ensures RLast(t, k, y) == AddKey(k, InvSubShift(y))
  {
    hide LastColumn, S, R, XorW, Val;
    forall v ensures t.rsb[Val(v)] == R(v) { t.Lookups(v); }
    LastColumnIs(t.rsb, k.x0, y.x0.a, y.x3.b, y.x2.c, y.x1.d);
    LastColumnIs(t.rsb, k.x1, y.x1.a, y.x0.b, y.x3.c, y.x2.d);
    LastColumnIs(t.rsb, k.x2, y.x2.a, y.x1.b, y.x0.c, y.x3.d);
    LastColumnIs(t.rsb, k.x3, y.x3.a, y.x2.b, y.x1.c, y.x0.d);
  }
}
