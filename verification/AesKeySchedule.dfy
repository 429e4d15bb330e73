/** `aes_set_key`: the key expansion of section 5.2 of FIPS 197, and the round keys of the
    equivalent inverse cipher (section 5.3.5). */
module AesKeySchedule {
  import opened GaloisField
  import opened SBox
  import opened AesTables
  import opened AesCipher
  import opened AesRounds

  /** Bytes `4i` to `4i + 3`, most significant first (`GET_UINT32`). */
  function GetWord(s: seq<Byte>, i: nat): (r: Word)
    requires 4 * i + 4 <= |s|
  {
    W(s[4 * i], s[4 * i + 1], s[4 * i + 2], s[4 * i + 3])
  }

  ghost function SubWord(w: Word): (r: Word) { W(S(w.a), S(w.b), S(w.c), S(w.d)) }

  function RotWord(w: Word): (r: Word) { W(w.b, w.c, w.d, w.a) }

  function RconWord(i: nat): (r: Word) { W(XTimes(i, ONE), ZERO, ZERO, ZERO) }

  /** The word `temp` of the standard, for word `i` of a key of `nk` words. */
  ghost function Temp(nk: nat, i: nat, prev: Word): (r: Word)
    requires 0 < nk <= i
  {
    hide SubWord, XorW, RconWord;
    AtLeastOne(nk, i);
    if i % nk == 0 then XorW(SubWord(RotWord(prev)), RconWord(i / nk - 1))
    else if nk > 6 && i % nk == 4 then SubWord(prev)
    else prev
  }

  lemma AtLeastOne(nk: nat, i: nat)
    requires 0 < nk <= i
    ensures i / nk >= 1
  {}

  /** The first `n` words of `rk` are the expanded key. */
  ghost predicate Expanded(rk: seq<Word>, key: seq<Byte>, nk: nat, n: nat)
    requires 0 < nk && 4 * nk <= |key|
  {
    && n <= |rk|
    && (forall i :: 0 <= i < nk && i < n ==> rk[i] == GetWord(key, i))
    && (forall i :: nk <= i < n ==> rk[i] == XorW(rk[i - nk], Temp(nk, i, rk[i - 1])))
  }

  /** The recurrence fixes every word: two expansions of one key agree. */
  lemma {:induction false} ExpansionUnique(rk: seq<Word>, rk': seq<Word>, key: seq<Byte>, nk: nat, n: nat, m: nat)
    requires 0 < nk && 4 * nk <= |key| && m <= n && Expanded(rk, key, nk, n) && Expanded(rk', key, nk, n)
    ensures rk[..m] == rk'[..m]
  {
    hide Temp, XorW, GetWord;
    if m > 0 {
      ExpansionUnique(rk, rk', key, nk, n, m - 1);
      forall i | 0 <= i < m ensures rk[i] == rk'[i] {
        assert i < m - 1 ==> rk[..m - 1][i] == rk'[..m - 1][i];
        if i == m - 1 && i >= nk {
          assert rk[..m - 1][i - nk] == rk'[..m - 1][i - nk];
          assert rk[..m - 1][i - 1] == rk'[..m - 1][i - 1];
        }
      }
    }
  }

  // ----- the three expansion loops --------------------------------------------------------

  /** One assignment `RK[n] = w`. */
  method PutWord(erk: array<Word>, ghost key: seq<Byte>, ghost nk: nat, n: nat, w: Word)
    requires 0 < nk && 4 * nk <= |key| && nk <= n < erk.Length && Expanded(erk[..], key, nk, n)
    requires w == XorW(erk[n - nk], Temp(nk, n, erk[n - 1]))
    modifies erk
    ensures Expanded(erk[..], key, nk, n + 1)
  {
    hide Temp, XorW, GetWord;
    erk[n] := w;
  }

  /** `RK[n] = RK[n - nk] ^ RK[n - 1]`. */
  method PutSum(erk: array<Word>, ghost key: seq<Byte>, nk: nat, n: nat)
    requires 0 < nk && 4 * nk <= |key| && nk <= n < erk.Length && Expanded(erk[..], key, nk, n)
    requires n % nk != 0 && (nk > 6 ==> n % nk != 4)
    modifies erk
    ensures Expanded(erk[..], key, nk, n + 1)
  {
    hide XorW, GetWord, Expanded, SubWord, RotWord, RconWord;
    PutWord(erk, key, nk, n, XorW(erk[n - nk], erk[n - 1]));
  }

  /** The S-box bytes of the rotated word, as the loops assemble them. */
  function SubRot(t: TableSet, w: Word): (r: Word)
    requires t.Sized()
  {
    W(t.fsb[Val(w.b)], t.fsb[Val(w.c)], t.fsb[Val(w.d)], t.fsb[Val(w.a)])
  }

  function Sub(t: TableSet, w: Word): (r: Word)
    requires t.Sized()
  {
    W(t.fsb[Val(w.a)], t.fsb[Val(w.b)], t.fsb[Val(w.c)], t.fsb[Val(w.d)])
  }

  lemma SubIs(t: TableSet, w: Word)
    requires t.Ready() && t.Sized()
    ensures Sub(t, w) == SubWord(w) && SubRot(t, w) == SubWord(RotWord(w))
  {
    hide Val, S;
    t.Lookups(w.a);
    t.Lookups(w.b);
    t.Lookups(w.c);
    t.Lookups(w.d);
  }

  lemma TempAtOpening(nk: nat, i: nat, q: nat, prev: Word)
    requires 0 < nk <= i && i % nk == 0 && i / nk == q + 1
    ensures Temp(nk, i, prev) == XorW(SubWord(RotWord(prev)), RconWord(q))
  {
    hide SubWord, XorW, RconWord;
  }

  lemma OpeningWord(t: TableSet, nk: nat, i: nat, q: nat, first: Word, prev: Word)
    requires t.Ready() && t.Sized() && 0 < nk <= i && q < 10 && i % nk == 0 && i / nk == q + 1
    ensures XorW(XorW(first, W(t.rcon[q], ZERO, ZERO, ZERO)), SubRot(t, prev)) == XorW(first, Temp(nk, i, prev))
  {
    hide S, Val, XorW, XTimes, SubRot, Temp;
    SubIs(t, prev);
    TempAtOpening(nk, i, q, prev);
    XorWAssoc(first, RconWord(q), SubWord(RotWord(prev)));
    XorWComm(RconWord(q), SubWord(RotWord(prev)));
  }

  /** The word that opens group `q`: rotated, through the S-box, and with a round constant. */
  method PutOpening(t: TableSet, erk: array<Word>, ghost key: seq<Byte>, nk: nat, q: nat)
    requires t.Ready() && (nk == 4 || nk == 6 || nk == 8) && q < 10 && 4 * nk <= |key| && nk * q + nk < erk.Length
    requires Expanded(erk[..], key, nk, nk * q + nk)
    modifies erk
    ensures Expanded(erk[..], key, nk, nk * q + nk + 1)
  {
    hide *;
    TablesSized(t);
    ghost var first, prev := erk[nk * q], erk[nk * q + nk - 1];
    assert (nk * q + nk) % nk == 0 && (nk * q + nk) / nk == q + 1;
    OpeningWord(t, nk, nk * q + nk, q, first, prev);
    PutWord(erk, key, nk, nk * q + nk,
      XorW(XorW(erk[nk * q], W(t.rcon[q], ZERO, ZERO, ZERO)), SubRot(t, erk[nk * q + nk - 1])));
  }

  lemma TablesSized(t: TableSet)
    requires t.Ready()
    ensures t.Sized() && |t.rcon| == 10
  {
    hide Val, S, R;
  }

  lemma MiddleTemp(i: nat, prev: Word)
    requires 8 <= i && i % 8 == 4
    ensures Temp(8, i, prev) == SubWord(prev)
  {
    hide SubWord;
  }

  lemma MiddleWord(t: TableSet, q: nat, prev: Word)
    requires t.Ready() && t.Sized()
    ensures Sub(t, prev) == Temp(8, 8 * q + 12, prev)
  {
    hide *;
    assert (8 * q + 12) % 8 == 4;
    MiddleTemp(8 * q + 12, prev);
    SubIs(t, prev);
  }

  /** The middle word of a group of eight goes through the S-box as well. */
  method PutMiddle(t: TableSet, erk: array<Word>, ghost key: seq<Byte>, q: nat)
    requires t.Ready() && 32 <= |key| && 8 * q + 12 < erk.Length
    requires Expanded(erk[..], key, 8, 8 * q + 12)
    modifies erk
    ensures Expanded(erk[..], key, 8, 8 * q + 13)
  {
    hide Expanded, XorW, SubWord, RotWord, RconWord, Sub, Temp;
    TablesSized(t);
    MiddleWord(t, q, erk[8 * q + 11]);
    PutWord(erk, key, 8, 8 * q + 12, XorW(erk[8 * q + 4], Sub(t, erk[8 * q + 11])));
  }

  method Expand128(t: TableSet, erk: array<Word>, ghost key: seq<Byte>)
    requires t.Ready() && erk.Length == 64 && |key| >= 16 && Expanded(erk[..], key, 4, 4)
    modifies erk
    ensures Expanded(erk[..], key, 4, 44)
  {
    hide Expanded, XorW, SubWord, RotWord, RconWord;
    for q := 0 to 10
      invariant Expanded(erk[..], key, 4, 4 * q + 4)
    {
      PutOpening(t, erk, key, 4, q);
      PutSum(erk, key, 4, 4 * q + 5);
      PutSum(erk, key, 4, 4 * q + 6);
      PutSum(erk, key, 4, 4 * q + 7);
    }
  }

  method Expand192(t: TableSet, erk: array<Word>, ghost key: seq<Byte>)
    requires t.Ready() && erk.Length == 64 && |key| >= 24 && Expanded(erk[..], key, 6, 6)
    modifies erk
    ensures Expanded(erk[..], key, 6, 54)
  {
    hide Expanded, XorW, SubWord, RotWord, RconWord;
    for q := 0 to 8
      invariant Expanded(erk[..], key, 6, 6 * q + 6)
    {
      PutOpening(t, erk, key, 6, q);
      PutSum(erk, key, 6, 6 * q + 7);
      PutSum(erk, key, 6, 6 * q + 8);
      PutSum(erk, key, 6, 6 * q + 9);
      PutSum(erk, key, 6, 6 * q + 10);
      PutSum(erk, key, 6, 6 * q + 11);
    }
  }

  method Expand256(t: TableSet, erk: array<Word>, ghost key: seq<Byte>)
    requires t.Ready() && erk.Length == 64 && |key| >= 32 && Expanded(erk[..], key, 8, 8)
    modifies erk
    ensures Expanded(erk[..], key, 8, 64)
  {
    hide Expanded, XorW, SubWord, RotWord, RconWord;
    for q := 0 to 7
      invariant Expanded(erk[..], key, 8, 8 * q + 8)
    {
      PutOpening(t, erk, key, 8, q);
      PutSum(erk, key, 8, 8 * q + 9);
      PutSum(erk, key, 8, 8 * q + 10);
      PutSum(erk, key, 8, 8 * q + 11);
      PutMiddle(t, erk, key, q);
      PutSum(erk, key, 8, 8 * q + 13);
      PutSum(erk, key, 8, 8 * q + 14);
      PutSum(erk, key, 8, 8 * q + 15);
    }
  }

  // ----- the decryption schedule ----------------------------------------------------------

  function KColumn(t: TableSet, w: Word): (r: Word)
    requires t.Sized()
  {
    XorW(XorW(XorW(t.k0[Val(w.a)], t.k1[Val(w.b)]), t.k2[Val(w.c)]), t.k3[Val(w.d)])
  }

  lemma KColumnIs(t: TableSet, w: Word)
    requires t.Ready() && t.Sized()
    ensures KColumn(t, w) == InvMix(w)
  {
    hide Val, XorW, Rotr8, InvMixByte;
    t.Lookups(w.a);
    t.Lookups(w.b);
    t.Lookups(w.c);
    t.Lookups(w.d);
  }

  lemma KStateIs(t: TableSet, k: State)
    requires t.Ready() && t.Sized()
    ensures St(KColumn(t, k.x0), KColumn(t, k.x1), KColumn(t, k.x2), KColumn(t, k.x3)) == InvMixState(k)
  {
    hide KColumn, InvMix;
    KColumnIs(t, k.x0);
    KColumnIs(t, k.x1);
    KColumnIs(t, k.x2);
    KColumnIs(t, k.x3);
  }

  /** Four assignments through `SK`. */
  method PutKey(a: array<Word>, i: nat, k: State)
    requires 4 * i + 4 <= a.Length
    modifies a
    ensures Key(a[..], i) == k
    ensures forall j: nat :: j < i ==> Key(a[..], j) == old(Key(a[..], j))
  {
    a[4 * i] := k.x0;
    a[4 * i + 1] := k.x1;
    a[4 * i + 2] := k.x2;
    a[4 * i + 3] := k.x3;
  }

  /** Fills `drk` from the end of `erk` backwards. */
  method InvertSchedule(t: TableSet, erk: array<Word>, drk: array<Word>, nr: nat)
    requires t.Ready() && erk != drk && erk.Length == 64 && drk.Length == 64 && 0 < nr <= 14
    modifies drk
    ensures InverseSchedule(erk[..], drk[..], nr)
  {
    hide InvMixState, KColumn, Key;
    TablesSized(t);
    PutKey(drk, 0, Key(erk[..], nr));
    for i := 1 to nr
      invariant Key(drk[..], 0) == Key(erk[..], nr)
      invariant forall j :: 0 < j < i ==> Key(drk[..], j) == InvMixState(Key(erk[..], nr - j))
    {
      var k := Key(erk[..], nr - i);
      KStateIs(t, k);
      PutKey(drk, i, St(KColumn(t, k.x0), KColumn(t, k.x1), KColumn(t, k.x2), KColumn(t, k.x3)));
    }
    PutKey(drk, nr, Key(erk[..], 0));
  }
}
