/** `aes_ctx` with `aes_set_key`, `aes_encrypt` and `aes_decrypt`. */
module Aes {
  import opened GaloisField
  import opened AesTables
  import opened AesCipher
  import opened AesRounds
  import opened AesKeySchedule

  // ----- blocks as bytes ------------------------------------------------------------------

  /** Four `GET_UINT32`, and four `PUT_UINT32`. */
  function Load(b: seq<Byte>): (r: State)
    requires |b| == 16
  {
    St(GetWord(b, 0), GetWord(b, 1), GetWord(b, 2), GetWord(b, 3))
  }

  function PutWordBytes(w: Word): (r: seq<Byte>) { [w.a, w.b, w.c, w.d] }

  function Store(y: State): (r: seq<Byte>)
    ensures |r| == 16 && Load(r) == y
  {
    PutWordBytes(y.x0) + PutWordBytes(y.x1) + PutWordBytes(y.x2) + PutWordBytes(y.x3)
  }

  lemma StoreLoad(b: seq<Byte>)
    requires |b| == 16
    ensures Store(Load(b)) == b
  {}

  /** `out[o..o + 16]` holds `b`, and the rest is as it was. */
  ghost predicate Replaced(out: seq<Byte>, was: seq<Byte>, o: nat, b: seq<Byte>) {
    && |out| == |was| && o + |b| <= |out|
    && out[o..o + |b|] == b && out[..o] == was[..o] && out[o + |b|..] == was[o + |b|..]
  }

  method StoreAt(y: State, output: array<Byte>, o: nat)
    requires o + 16 <= output.Length
    modifies output
    ensures Replaced(output[..], old(output[..]), o, Store(y))
  {
    var b := Store(y);
    for i := 0 to 16
      invariant output[o..o + i] == b[..i]
      invariant output[..o] == old(output[..o]) && output[o + 16..] == old(output[o + 16..])
    {
      output[o + i] := b[i];
      assert output[o..o + i + 1] == output[o..o + i] + [b[i]];
    }
    assert b[..16] == b;
  }

  // ----- the rounds in sequence -----------------------------------------------------------

  lemma NextRound(t: TableSet, rk: seq<Word>, j: nat, input: State, x: State)
    requires t.Ready() && t.Sized() && 4 * j + 8 <= |rk| && x == Rounds(rk, j, input)
    ensures FRound(t, Key(rk, j + 1), x) == Rounds(rk, j + 1, input)
  {
    hide *;
    FRoundIs(t, Key(rk, j + 1), x);
    RoundsStep(rk, j, input);
  }

  lemma RoundsStep(rk: seq<Word>, j: nat, input: State)
    requires 4 * j + 8 <= |rk|
    ensures Rounds(rk, j + 1, input) == AddKey(Key(rk, j + 1), MixState(SubShift(Rounds(rk, j, input))))
  {
    hide SubShift, MixState, AddKey, Key;
  }

  lemma NextInvRound(t: TableSet, dk: seq<Word>, j: nat, input: State, x: State)
    requires t.Ready() && t.Sized() && 4 * j + 8 <= |dk| && x == InvRounds(dk, j, input)
    ensures RRound(t, Key(dk, j + 1), x) == InvRounds(dk, j + 1, input)
  {
    hide *;
    RRoundIs(t, Key(dk, j + 1), x);
    InvRoundsStep(dk, j, input);
  }

  lemma InvRoundsStep(dk: seq<Word>, j: nat, input: State)
    requires 4 * j + 8 <= |dk|
    ensures InvRounds(dk, j + 1, input) == AddKey(Key(dk, j + 1), InvMixState(InvSubShift(InvRounds(dk, j, input))))
  {
    hide InvSubShift, InvMixState, AddKey, Key;
  }

  predicate KeySize(nbits: nat) { nbits == 128 || nbits == 192 || nbits == 256 }

  class Context {
    const t: TableSet
    const erk: array<Word>
    const drk: array<Word>
    var nr: nat

    ghost predicate Valid() {
      t.Ready() && t.Sized() && erk != drk && erk.Length == 64 && drk.Length == 64
    }

    /** A key is set: ten, twelve or fourteen rounds, and matching schedules. */
    ghost predicate Keyed()
      reads this, erk, drk
    {
      && Valid() && (nr == 10 || nr == 12 || nr == 14) && |erk[..]| == |drk[..]| == 64
      && InverseSchedule(erk[..], drk[..], nr)
    }

    constructor (t: TableSet)
      requires t.Ready()
      ensures Valid() && fresh(erk) && fresh(drk)
    {
      this.t := t;
      erk, drk := new Word[64], new Word[64];
      nr := 0;
      TablesSized(t);
    }

    /** `aes_set_key`. */
    method SetKey(key: seq<Byte>, nbits: nat) returns (r: int)
      requires Valid() && 8 * |key| >= nbits
      modifies this, erk, drk
      ensures r == if KeySize(nbits) then 0 else 1
      ensures r == 0 ==> Keyed() && nr == nbits / 32 + 6 && Expanded(erk[..], key, nbits / 32, 4 * nr + 4)
      ensures r == 1 ==> nr == old(nr) && erk[..] == old(erk[..]) && drk[..] == old(drk[..])
    {
      hide InverseSchedule, GetWord, Temp, XorW, TableSet.Ready;
      match nbits {
        case 128 => nr := 10;
        case 192 => nr := 12;
        case 256 => nr := 14;
        case _ => return 1;
      }
      for i := 0 to nbits / 32
        invariant forall j :: 0 <= j < i ==> erk[j] == GetWord(key, j)
        invariant nr == nbits / 32 + 6 && drk[..] == old(drk[..])
      {
        erk[i] := GetWord(key, i);
      }
      match nbits {
        case 128 => Expand128(t, erk, key);
        case 192 => Expand192(t, erk, key);
        case 256 => Expand256(t, erk, key);
      }
      InvertSchedule(t, erk, drk, nr);
      r := 0;
    }

    /** `aes_encrypt`: nine rounds through the tables, two more for each longer key, and the
        last round. */
    method Encrypt(input: array<Byte>, i: nat, output: array<Byte>, o: nat)
      requires Keyed() && i + 16 <= input.Length && o + 16 <= output.Length
      modifies output
      ensures Keyed()
      ensures Replaced(output[..], old(output[..]), o, Store(Cipher(erk[..], nr, Load(old(input[i..i + 16])))))
    {
      hide FRound, FLast, Rounds, Cipher, AddKey, Key, Load, Store, Replaced, TableSet.Ready;
      hide InverseSchedule;
      ghost var start := Load(input[i..i + 16]);
      var rk := erk[..];
      var x := AddKey(Key(rk, 0), Load(input[i..i + 16]));
      FirstState(rk, start);
      var y := FRound(t, Key(rk, 1), x); NextRound(t, rk, 0, start, x);
      x := FRound(t, Key(rk, 2), y); NextRound(t, rk, 1, start, y);
      y := FRound(t, Key(rk, 3), x); NextRound(t, rk, 2, start, x);
      x := FRound(t, Key(rk, 4), y); NextRound(t, rk, 3, start, y);
      y := FRound(t, Key(rk, 5), x); NextRound(t, rk, 4, start, x);
      x := FRound(t, Key(rk, 6), y); NextRound(t, rk, 5, start, y);
      y := FRound(t, Key(rk, 7), x); NextRound(t, rk, 6, start, x);
      x := FRound(t, Key(rk, 8), y); NextRound(t, rk, 7, start, y);
      y := FRound(t, Key(rk, 9), x); NextRound(t, rk, 8, start, x);
      if nr > 10 {
        x := FRound(t, Key(rk, 10), y); NextRound(t, rk, 9, start, y);
        y := FRound(t, Key(rk, 11), x); NextRound(t, rk, 10, start, x);
      }
      if nr > 12 {
        x := FRound(t, Key(rk, 12), y); NextRound(t, rk, 11, start, y);
        y := FRound(t, Key(rk, 13), x); NextRound(t, rk, 12, start, x);
      }
      LastRound(t, rk, nr, start, y);
      x := FLast(t, Key(rk, nr), y);
      StoreAt(x, output, o);
    }

    /** `aes_decrypt`. */
    method Decrypt(input: array<Byte>, i: nat, output: array<Byte>, o: nat)
      requires Keyed() && i + 16 <= input.Length && o + 16 <= output.Length
      modifies output
      ensures Keyed()
      ensures Replaced(output[..], old(output[..]), o, Store(InvCipher(drk[..], nr, Load(old(input[i..i + 16])))))
    {
      hide RRound, RLast, InvRounds, InvCipher, AddKey, Key, Load, Store, Replaced, TableSet.Ready;
      hide InverseSchedule;
      ghost var start := Load(input[i..i + 16]);
      var rk := drk[..];
      var x := AddKey(Key(rk, 0), Load(input[i..i + 16]));
      FirstState(rk, start);
      var y := RRound(t, Key(rk, 1), x); NextInvRound(t, rk, 0, start, x);
      x := RRound(t, Key(rk, 2), y); NextInvRound(t, rk, 1, start, y);
      y := RRound(t, Key(rk, 3), x); NextInvRound(t, rk, 2, start, x);
      x := RRound(t, Key(rk, 4), y); NextInvRound(t, rk, 3, start, y);
      y := RRound(t, Key(rk, 5), x); NextInvRound(t, rk, 4, start, x);
      x := RRound(t, Key(rk, 6), y); NextInvRound(t, rk, 5, start, y);
      y := RRound(t, Key(rk, 7), x); NextInvRound(t, rk, 6, start, x);
      x := RRound(t, Key(rk, 8), y); NextInvRound(t, rk, 7, start, y);
      y := RRound(t, Key(rk, 9), x); NextInvRound(t, rk, 8, start, x);
      if nr > 10 {
        x := RRound(t, Key(rk, 10), y); NextInvRound(t, rk, 9, start, y);
        y := RRound(t, Key(rk, 11), x); NextInvRound(t, rk, 10, start, x);
      }
      if nr > 12 {
        x := RRound(t, Key(rk, 12), y); NextInvRound(t, rk, 11, start, y);
        y := RRound(t, Key(rk, 13), x); NextInvRound(t, rk, 12, start, x);
      }
      LastInvRound(t, rk, nr, start, y);
      x := RLast(t, Key(rk, nr), y);
      StoreAt(x, output, o);
    }
  }

  lemma FirstState(rk: seq<Word>, input: State)
    requires |rk| == 64
    ensures Rounds(rk, 0, input) == AddKey(Key(rk, 0), input) && InvRounds(rk, 0, input) == AddKey(Key(rk, 0), input)
  {
    hide AddKey, Key;
  }

  lemma LastRound(t: TableSet, rk: seq<Word>, nr: nat, input: State, y: State)
    requires t.Ready() && t.Sized() && 0 < nr && 4 * nr + 4 <= |rk| && y == Rounds(rk, nr - 1, input)
    ensures FLast(t, Key(rk, nr), y) == Cipher(rk, nr, input)
  {
    hide FLast, AddKey, SubShift, Key;
    FLastIs(t, Key(rk, nr), y);
  }

  lemma LastInvRound(t: TableSet, dk: seq<Word>, nr: nat, input: State, y: State)
    requires t.Ready() && t.Sized() && 0 < nr && 4 * nr + 4 <= |dk| && y == InvRounds(dk, nr - 1, input)
    ensures RLast(t, Key(dk, nr), y) == InvCipher(dk, nr, input)
  {
    hide RLast, AddKey, InvSubShift, Key;
    RLastIs(t, Key(dk, nr), y);
  }
}
